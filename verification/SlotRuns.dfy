/**
 What the slot monitor guarantees over whole runs: how the slot times add up, what its two
 thresholds say about each other, which messages it ignores, and what a reported stall is worth.
 */
module SlotRuns {
  import opened Durations
  import opened SlotMonitor

  /* ---------- Accepted slots ---------- */

  /** The accepted slots are consecutive: the newest is the seed plus the number of extensions. */
  lemma {:induction false} AcceptedAreConsecutive(events: seq<Event>, i: nat)
    requires i < |Accepted(events)|
    ensures Accepted(events)[i].slot == Accepted(events)[0].slot + i
  {
    var before := events[..|events| - 1];
    if i < |Accepted(before)| {
      AcceptedAreConsecutive(before, i);
    } else if i > 0 {
      AcceptedAreConsecutive(before, i - 1);
    }
  }

  /** The events without the slot messages that are neither the seed nor an extension. */
  ghost function Relevant(events: seq<Event>): seq<Event> {
    if events == [] then []
    else
      var before, event := events[..|events| - 1], events[|events| - 1];
      Relevant(before) + if event.Slot? && !Accepts(Accepted(before), event) then [] else [event]
  }

  /** Dropping every rejected slot message changes nothing: neither the state nor the alerts. */
  lemma {:induction false} RejectedAreInvisible(config: Config, victim: Victim, start: Instant, events: seq<Event>)
    ensures Accepted(Relevant(events)) == Accepted(events)
    ensures Quiet(Relevant(events)) == Quiet(events)
    ensures Alerts(config, victim, start, Relevant(events)) == Alerts(config, victim, start, events)
  {
    if events != [] {
      var before, event := events[..|events| - 1], events[|events| - 1];
      RejectedAreInvisible(config, victim, start, before);
      if event.Slot? && !Accepts(Accepted(before), event) {
        assert Relevant(events) == Relevant(before);
      } else {
        assert Relevant(events)[..|Relevant(before)|] == Relevant(before);
      }
    }
  }

  /* ---------- Slot times add up ---------- */

  /** The total amount by which accepted instants went back in time. */
  ghost function Backsteps(start: Instant, accepted: seq<Stamp>): nat {
    if accepted == [] then 0
    else
      var before, at := accepted[..|accepted| - 1], accepted[|accepted| - 1].at;
      Backsteps(start, before) + DurationSince(Reference(start, before), at)
  }

  /** The accepted instants never go back. */
  ghost predicate Ordered(start: Instant, accepted: seq<Stamp>) {
    accepted == [] ||
    var before := accepted[..|accepted| - 1];
    Ordered(start, before) && Reference(start, before) <= accepted[|accepted| - 1].at
  }

  lemma {:induction false} DurationsTelescope(start: Instant, accepted: seq<Stamp>)
    ensures Sum(Details(start, accepted)) + start == Reference(start, accepted) + Backsteps(start, accepted)
    ensures Backsteps(start, accepted) == 0 <==> Ordered(start, accepted)
  {
    if accepted != [] {
      var before := accepted[..|accepted| - 1];
      DurationsTelescope(start, before);
      assert Details(start, accepted)[..|before|] == Details(start, before);
    }
  }

  /**
   In every run, whatever else was received, the times of the accepted slots add up to the time
   from the start to the reference instant exactly when the accepted instants never go back.
   */
  lemma SlotTimesAddUpIff(start: Instant, events: seq<Event>)
    ensures Sum(Details(start, Accepted(events))) == Reference(start, Accepted(events)) - start
       <==> Ordered(start, Accepted(events))
  {
    DurationsTelescope(start, Accepted(events));
  }

  lemma {:induction false} SumAppend(a: seq<SlotDetails>, b: seq<SlotDetails>)
    ensures Sum(a + b) == Sum(a) + Sum(b)
  {
    if b == [] {
      assert a + b == a;
    } else {
      var front := b[..|b| - 1];
      assert (a + b)[..|a + b| - 1] == a + front;
      SumAppend(a, front);
    }
  }

  lemma SumWithoutMiddle(s: seq<SlotDetails>, i: nat, k: nat)
    requires i <= k <= |s|
    ensures Sum(s[..i] + s[k..]) <= Sum(s)
  {
    var first, middle, last := s[..i], s[i..k], s[k..];
    assert s == first + middle + last;
    SumAppend(first, last);
    SumAppend(first + middle, last);
    SumAppend(first, middle);
  }

  /** The window never holds more time than all accepted slots took. */
  lemma WindowSum(details: seq<SlotDetails>, victim: Victim)
    ensures Sum(Window(details, victim)) <= Sum(details)
  {
    if |details| > WINDOW {
      var k := |details| - (WINDOW - victim);
      assert Window(details, victim) == details[..victim] + details[k..];
      SumWithoutMiddle(details, victim, k);
    }
  }

  /**
   With instants that never go back, the sum over the window is at most the time since the start,
   so it is a representable span. When the window first fills, the average is that time over 600.
   */
  lemma WindowSumFits(start: Instant, events: seq<Event>, victim: Victim)
    requires Ordered(start, Accepted(events))
    ensures var accepted := Accepted(events);
            var window := Window(Details(start, accepted), victim);
            && Sum(window) <= Reference(start, accepted) - start <= DURATION_MAX
            && (|accepted| == WINDOW ==> Average(window) == (Reference(start, accepted) - start) / WINDOW)
  {
    DurationsTelescope(start, Accepted(events));
    WindowSum(Details(start, Accepted(events)), victim);
  }

  /* ---------- The two thresholds ---------- */

  lemma {:induction false} SumBound(slots: seq<SlotDetails>, bound: nat)
    requires forall i | 0 <= i < |slots| :: slots[i].duration <= bound
    ensures Sum(slots) <= |slots| * bound
  {
    if slots != [] {
      SumBound(slots[..|slots| - 1], bound);
      assert |slots| * bound == (|slots| - 1) * bound + bound;
    }
  }

  lemma QuotientBound(sum: nat, n: nat, bound: nat)
    requires n > 0 && sum <= n * bound
    ensures sum / n <= bound
  {
    var q := sum / n;
    assert n * (q - bound) == n * q - n * bound <= 0;
  }

  lemma AverageBound(slots: seq<SlotDetails>, bound: nat)
    requires slots != [] && forall i | 0 <= i < |slots| :: slots[i].duration <= bound
    ensures Average(slots) <= bound
  {
    SumBound(slots, bound);
    QuotientBound(Sum(slots), |slots|, bound);
  }

  /** Every windowed slot is an accepted one. */
  lemma WindowedAreAccepted(details: seq<SlotDetails>, victim: Victim, i: nat) returns (k: nat)
    requires i < |Window(details, victim)|
    ensures k < |details| && details[k] == Window(details, victim)[i]
  {
    k := if |details| <= WINDOW || i < victim then i else |details| - WINDOW + i;
  }

  /** If the average exceeds a bound, some accepted slot in the window does. */
  lemma SlowAverageHasSlowSlot(details: seq<SlotDetails>, victim: Victim, bound: nat) returns (k: nat)
    requires details != [] && Average(Window(details, victim)) > bound
    ensures k < |details| && details[k].duration > bound && details[k] in Window(details, victim)
  {
    var window := Window(details, victim);
    if forall i | 0 <= i < |window| :: window[i].duration <= bound {
      AverageBound(window, bound);
      assert false;
    }
    var i :| 0 <= i < |window| && window[i].duration > bound;
    k := WindowedAreAccepted(details, victim, i);
  }

  /** Accepted slots keep their times as the run goes on. */
  lemma {:induction false} DetailsArePrefix(start: Instant, accepted: seq<Stamp>, n: nat)
    requires n <= |accepted|
    ensures Details(start, accepted[..n]) == Details(start, accepted)[..n]
  {
    if n < |accepted| {
      var before := accepted[..|accepted| - 1];
      DetailsArePrefix(start, before, n);
      assert before[..n] == accepted[..n];
    } else {
      assert accepted[..n] == accepted;
    }
  }

  /** `alert` says that accepted slot `i`, an extension, took longer than the threshold. */
  ghost predicate SaysSlow(config: Config, start: Instant, accepted: seq<Stamp>, i: nat, alert: Alert) {
    && 0 < i < |accepted|
    && var x := Details(start, accepted)[i];
       && x.duration > config.perSlotThreshold
       && alert == SlowSlot(x.slot, accepted[i - 1].slot, x.duration, config.perSlotThreshold)
  }

  lemma SaysSlowPersists(config: Config, start: Instant, accepted: seq<Stamp>, event: Event, i: nat, alert: Alert)
    requires i < |accepted|
    ensures SaysSlow(config, start, accepted, i, alert) <==> SaysSlow(config, start, NextAccepted(accepted, event), i, alert)
  {
    var next := NextAccepted(accepted, event);
    assert next[..|accepted|] == accepted;
    DetailsArePrefix(start, next, |accepted|);
  }

  /** Every extension that took longer than the per-slot threshold was alerted. */
  lemma {:induction false} SlowExtensionsAreAlerted(config: Config, victim: Victim, start: Instant,
                                                   events: seq<Event>, i: nat, alert: Alert)
    requires SaysSlow(config, start, Accepted(events), i, alert)
    ensures alert in Alerts(config, victim, start, events)
  {
    var before, event := events[..|events| - 1], events[|events| - 1];
    var accepted := Accepted(before);
    if i < |accepted| {
      SaysSlowPersists(config, start, accepted, event, i, alert);
      SlowExtensionsAreAlerted(config, victim, start, before, i, alert);
    } else {
      assert Extends(accepted, event);
      assert SlowAlert(config, accepted[i - 1].slot, Details(start, Accepted(events))[i])[0] == alert;
      assert alert in AlertsAt(config, victim, start, accepted, Quiet(before), event);
    }
  }

  lemma SlowAlertAt(config: Config, victim: Victim, start: Instant, accepted: seq<Stamp>, quiet: nat, event: Event,
                    alert: Alert)
    requires alert.SlowSlot? && alert in AlertsAt(config, victim, start, accepted, quiet, event)
    ensures SaysSlow(config, start, NextAccepted(accepted, event), |accepted|, alert)
  {
    var details := Details(start, NextAccepted(accepted, event));
    assert alert in SlowAlert(config, accepted[|accepted| - 1].slot, details[|details| - 1]);
  }

  /** Conversely, every slow-slot alert stands for an extension that took longer than the threshold. */
  lemma {:induction false} SlowAlertsAreSlowExtensions(config: Config, victim: Victim, start: Instant,
                                                      events: seq<Event>, alert: Alert) returns (i: nat)
    requires alert.SlowSlot? && alert in Alerts(config, victim, start, events)
    ensures SaysSlow(config, start, Accepted(events), i, alert)
  {
    var before, event := events[..|events| - 1], events[|events| - 1];
    if alert in Alerts(config, victim, start, before) {
      i := SlowAlertsAreSlowExtensions(config, victim, start, before, alert);
      SaysSlowPersists(config, start, Accepted(before), event, i, alert);
    } else {
      i := |Accepted(before)|;
      SlowAlertAt(config, victim, start, Accepted(before), Quiet(before), event, alert);
    }
  }

  /**
   An average alert means that an accepted slot in the window took longer than the average threshold.
   If that threshold is no lower than the per-slot one, that slot is the seed or it was alerted.
   */
  lemma AvgAlertHasSlowSlot(config: Config, victim: Victim, start: Instant, events: seq<Event>, alert: Alert)
    returns (k: nat)
    requires events != [] && alert.AvgSlowSlots?
    requires var before := events[..|events| - 1];
             alert in AlertsAt(config, victim, start, Accepted(before), Quiet(before), events[|events| - 1])
    ensures var details := Details(start, Accepted(events));
            && k < |details| && details[k] in Window(details, victim)
            && details[k].duration > config.avgSlotThreshold
    ensures config.avgSlotThreshold >= config.perSlotThreshold && k > 0 ==>
              exists slow | slow in Alerts(config, victim, start, events) ::
                SaysSlow(config, start, Accepted(events), k, slow)
  {
    k := SlowAverageHasSlowSlot(Details(start, Accepted(events)), victim, config.avgSlotThreshold);
    if config.avgSlotThreshold >= config.perSlotThreshold && k > 0 {
      var x := Details(start, Accepted(events))[k];
      var slow := SlowSlot(x.slot, Accepted(events)[k - 1].slot, x.duration, config.perSlotThreshold);
      SlowExtensionsAreAlerted(config, victim, start, events, k, slow);
    }
  }

  /* ---------- Timeouts and time ---------- */

  /** The number of timeouts since the last accepted slot, the seed included, or since the start. */
  ghost function SinceAccepted(events: seq<Event>): nat {
    if events == [] then 0
    else
      var before, event := events[..|events| - 1], events[|events| - 1];
      if event.Timeout? then SinceAccepted(before) + 1
      else if Accepts(Accepted(before), event) then 0
      else SinceAccepted(before)
  }

  /** The number of timeouts before the seed slot. */
  ghost function BeforeSeed(events: seq<Event>): nat {
    if events == [] then 0
    else
      var before, event := events[..|events| - 1], events[|events| - 1];
      if event.Timeout? && Accepted(before) == [] then BeforeSeed(before) + 1 else BeforeSeed(before)
  }

  /** Counted timeouts: those since the last accepted slot and, until the first extension, those before the seed. */
  lemma {:induction false} QuietCounts(events: seq<Event>)
    ensures Accepted(events) == [] ==> Quiet(events) == SinceAccepted(events) == BeforeSeed(events)
    ensures |Accepted(events)| == 1 ==> Quiet(events) == BeforeSeed(events) + SinceAccepted(events)
    ensures |Accepted(events)| > 1 ==> Quiet(events) == SinceAccepted(events)
  {
    if events != [] {
      QuietCounts(events[..|events| - 1]);
    }
  }

  ghost function Now(start: Instant, clock: seq<Instant>): Instant {
    if clock == [] then start else clock[|clock| - 1]
  }

  /**
   `clock[i]` is when event `i` was handled. The clock does not go back, a timeout takes at least
   the timeout span, and a slot was stamped no later than it was handled and no earlier than any
   timeout before it.
   */
  ghost predicate Timed(start: Instant, events: seq<Event>, clock: seq<Instant>) {
    && |clock| == |events|
    && (events == [] ||
        var n := |events| - 1;
        && Timed(start, events[..n], clock[..n])
        && Now(start, clock[..n]) <= clock[n]
        && (events[n].Timeout? ==> Now(start, clock[..n]) + SLOT_TIMEOUT <= clock[n])
        && (events[n].Slot? ==> events[n].at <= clock[n])
        && (events[n].Slot? ==> forall j | 0 <= j < n && events[j].Timeout? :: clock[j] <= events[n].at))
  }

  /** The clock has advanced by every timeout since the last accepted slot. */
  lemma {:induction false} ClockAdvances(start: Instant, events: seq<Event>, clock: seq<Instant>)
    requires Timed(start, events, clock)
    ensures Reference(start, Accepted(events)) + SinceAccepted(events) * SLOT_TIMEOUT <= Now(start, clock)
  {
    if events != [] {
      var n := |events| - 1;
      ClockAdvances(start, events[..n], clock[..n]);
    }
  }

  /** A slot stamped after all timeouts so far is at least that much later than the last accepted one. */
  lemma {:induction false} StampAdvances(start: Instant, events: seq<Event>, clock: seq<Instant>, at: Instant)
    requires Timed(start, events, clock) && SinceAccepted(events) > 0
    requires forall j | 0 <= j < |events| && events[j].Timeout? :: clock[j] <= at
    ensures Reference(start, Accepted(events)) + SinceAccepted(events) * SLOT_TIMEOUT <= at
  {
    var n := |events| - 1;
    if events[n].Timeout? {
      ClockAdvances(start, events, clock);
    } else {
      assert forall j | 0 <= j < n :: events[..n][j] == events[j] && clock[..n][j] == clock[j];
      StampAdvances(start, events[..n], clock[..n], at);
    }
  }

  /** The time the extension by `event` took. */
  ghost function ExtensionTime(start: Instant, before: seq<Event>, event: Event): Duration
    requires event.Slot?
  {
    DurationSince(event.at, Reference(start, Accepted(before)))
  }

  /** `event` extends the chain after `before` and ends a stall: a recovery is sent. */
  ghost predicate Recovers(before: seq<Event>, event: Event) {
    Extends(Accepted(before), event) && Quiet(before) > 0
  }

  /** The seed cleared no timeouts: there was an extension before, or no timeout came before the seed. */
  ghost predicate NothingBeforeSeed(before: seq<Event>) {
    |Accepted(before)| > 1 || BeforeSeed(before) == 0
  }

  /** The recovery that `event` sends reports at most the time that its slot took. */
  ghost predicate WithinSlotTime(start: Instant, before: seq<Event>, event: Event)
    requires event.Slot?
  {
    Repeated(Quiet(before), SLOT_TIMEOUT) <= ExtensionTime(start, before, event)
  }

  lemma TimedRecoveryIsWithin(start: Instant, before: seq<Event>, event: Event, clock: seq<Instant>)
    requires Timed(start, before + [event], clock)
    requires Recovers(before, event) && NothingBeforeSeed(before)
    ensures WithinSlotTime(start, before, event) && ExtensionTime(start, before, event) >= SLOT_TIMEOUT
  {
    var n := |before|;
    assert (before + [event])[..n] == before;
    assert forall j | 0 <= j < n :: (before + [event])[j] == before[j] && clock[..n][j] == clock[j];
    QuietCounts(before);
    StampAdvances(start, before, clock[..n], event.at);
    RepeatedIsMultiple(Quiet(before), SLOT_TIMEOUT);
  }

  /**
   In a timed run a recovery never reports more than its slot took, provided nothing came before the
   seed. With a per-slot threshold below the timeout span, the same slot is then alerted as slow.
   */
  lemma RecoveryIsWithinSlotTime(config: Config, victim: Victim, start: Instant, before: seq<Event>, event: Event,
                                 clock: seq<Instant>)
    requires Timed(start, before + [event], clock)
    requires Recovers(before, event) && NothingBeforeSeed(before)
    ensures TimekeeperRecovery(event.slot, Repeated(Quiet(before), SLOT_TIMEOUT))
              in AlertsAt(config, victim, start, Accepted(before), Quiet(before), event)
    ensures WithinSlotTime(start, before, event)
    ensures config.perSlotThreshold < SLOT_TIMEOUT ==>
              SlowSlot(event.slot, event.slot - 1, ExtensionTime(start, before, event), config.perSlotThreshold)
                in AlertsAt(config, victim, start, Accepted(before), Quiet(before), event)
  {
    TimedRecoveryIsWithin(start, before, event, clock);
    ExtensionSends(config, victim, start, Accepted(before), Quiet(before), event);
    var x := SlotDetails(event.slot, ExtensionTime(start, before, event));
    assert RecoveryAlert(x.slot, Fired(Quiet(before)))[0]
        == TimekeeperRecovery(event.slot, Repeated(Quiet(before), SLOT_TIMEOUT));
    if config.perSlotThreshold < SLOT_TIMEOUT {
      assert SlowAlert(config, event.slot - 1, x)[0]
          == SlowSlot(event.slot, event.slot - 1, x.duration, config.perSlotThreshold);
    }
  }

  /* ---------- The proviso is exact ---------- */

  /** The same events in the same order, stamped differently perhaps. */
  ghost predicate SameOrder(a: seq<Event>, b: seq<Event>) {
    && |a| == |b|
    && forall i | 0 <= i < |a| :: (a[i].Timeout? <==> b[i].Timeout?) && (a[i].Slot? ==> a[i].slot == b[i].slot)
  }

  ghost function Timeouts(events: seq<Event>): nat {
    if events == [] then 0
    else Timeouts(events[..|events| - 1]) + if events[|events| - 1].Timeout? then 1 else 0
  }

  /** What is accepted and counted depends on the order alone. */
  lemma {:induction false} OrderDecides(a: seq<Event>, b: seq<Event>)
    requires SameOrder(a, b)
    ensures |Accepted(a)| == |Accepted(b)|
    ensures forall i | 0 <= i < |Accepted(a)| :: Accepted(a)[i].slot == Accepted(b)[i].slot
    ensures Quiet(a) == Quiet(b) && BeforeSeed(a) == BeforeSeed(b) && Timeouts(a) == Timeouts(b)
  {
    if a != [] {
      OrderDecides(a[..|a| - 1], b[..|b| - 1]);
    }
  }

  /** However the events are stamped, as long as the stamps are timed, the recovery is within the slot time. */
  ghost predicate AlwaysWithin(before: seq<Event>, event: Event) {
    forall start, before', event', clock |
      SameOrder(before' + [event'], before + [event]) && Timed(start, before' + [event'], clock) ::
      event'.Slot? && WithinSlotTime(start, before', event')
  }

  /** Nothing takes longer than it must: timeouts take exactly their span, messages no time. */
  ghost predicate Prompt(start: Instant, events: seq<Event>, clock: seq<Instant>) {
    && |clock| == |events|
    && (events == [] ||
        var n := |events| - 1;
        && Prompt(start, events[..n], clock[..n])
        && clock[n] == Now(start, clock[..n]) + (if events[n].Timeout? then SLOT_TIMEOUT else 0)
        && (events[n].Slot? ==> events[n].at == clock[n]))
  }

  lemma {:induction false} PromptClock(start: Instant, events: seq<Event>, clock: seq<Instant>)
    requires Prompt(start, events, clock)
    ensures Now(start, clock) == Reference(start, Accepted(events)) + SinceAccepted(events) * SLOT_TIMEOUT
    ensures Timed(start, events, clock)
    ensures forall j | 0 <= j < |clock| :: clock[j] <= Now(start, clock)
  {
    if events != [] {
      var n := |events| - 1;
      PromptClock(start, events[..n], clock[..n]);
      assert forall j | 0 <= j < n :: clock[..n][j] == clock[j];
    }
  }

  lemma PromptRecoveryOverstates(start: Instant, before: seq<Event>, event: Event, clock: seq<Instant>)
    requires Prompt(start, before + [event], clock)
    requires Recovers(before, event) && !NothingBeforeSeed(before)
    requires Quiet(before) * SLOT_TIMEOUT <= DURATION_MAX
    ensures Timed(start, before + [event], clock) && !WithinSlotTime(start, before, event)
  {
    var n := |before|;
    assert (before + [event])[..n] == before;
    PromptClock(start, before + [event], clock);
    PromptClock(start, before, clock[..n]);
    QuietCounts(before);
    RepeatedIsMultiple(Quiet(before), SLOT_TIMEOUT);
  }

  /** The events in their order can be stamped without any delay from instant zero on, if a clock has room for that. */
  lemma {:induction false} PromptRun(events: seq<Event>) returns (run: seq<Event>, clock: seq<Instant>)
    requires Timeouts(events) * SLOT_TIMEOUT <= DURATION_MAX
    ensures SameOrder(run, events) && Prompt(0, run, clock)
    ensures Now(0, clock) == Timeouts(events) * SLOT_TIMEOUT
  {
    run, clock := [], [];
    if events != [] {
      var n := |events| - 1;
      var before, earlier := PromptRun(events[..n]);
      var now: Instant := Timeouts(events) * SLOT_TIMEOUT;
      var event := if events[n].Timeout? then Timeout else Slot(events[n].slot, now);
      run, clock := before + [event], earlier + [now];
      assert run[..n] == before && clock[..n] == earlier;
    }
  }

  lemma {:induction false} QuietWithinTimeouts(events: seq<Event>)
    ensures Quiet(events) <= Timeouts(events)
  {
    if events != [] {
      QuietWithinTimeouts(events[..|events| - 1]);
    }
  }

  /** A timed run has time for all its timeouts. */
  lemma {:induction false} TimeoutsTakeTime(start: Instant, events: seq<Event>, clock: seq<Instant>)
    requires Timed(start, events, clock)
    ensures Timeouts(events) * SLOT_TIMEOUT <= Now(start, clock)
  {
    if events != [] {
      var n := |events| - 1;
      TimeoutsTakeTime(start, events[..n], clock[..n]);
    }
  }

  /** Equal orders agree on what came before the last event and on the last event. */
  lemma OrderSplits(before': seq<Event>, event': Event, before: seq<Event>, event: Event)
    requires SameOrder(before' + [event'], before + [event])
    ensures SameOrder(before', before)
    ensures Recovers(before, event) <==> Recovers(before', event')
    ensures NothingBeforeSeed(before) <==> NothingBeforeSeed(before')
  {
    var n := |before|;
    assert (before' + [event'])[n] == event' && (before + [event])[n] == event;
    assert forall i | 0 <= i < n :: (before' + [event'])[i] == before'[i] && (before + [event])[i] == before[i];
    OrderDecides(before', before);
  }

  lemma PromptRunRefutes(before: seq<Event>, event: Event, before': seq<Event>, event': Event, clock: seq<Instant>)
    requires Recovers(before, event) && !NothingBeforeSeed(before) && Quiet(before) * SLOT_TIMEOUT <= DURATION_MAX
    requires SameOrder(before' + [event'], before + [event]) && Prompt(0, before' + [event'], clock)
    ensures !AlwaysWithin(before, event)
  {
    OrderSplits(before', event', before, event);
    assert Quiet(before') == Quiet(before) by {
      OrderDecides(before', before);
    }
    PromptRecoveryOverstates(0, before', event', clock);
  }

  lemma OverstatingRun(before: seq<Event>, event: Event)
    requires Recovers(before, event) && !NothingBeforeSeed(before)
    requires Timeouts(before) * SLOT_TIMEOUT <= DURATION_MAX
    ensures !AlwaysWithin(before, event)
  {
    var n, events := |before|, before + [event];
    assert events[..n] == before;
    var run, clock := PromptRun(events);
    assert run == run[..n] + [run[n]];
    QuietWithinTimeouts(before);
    PromptRunRefutes(before, event, run[..n], run[n], clock);
  }

  /**
   For any order of events that ends with a recovery: the recovery is within the slot's time however
   the events are stamped if and only if nothing came before the seed, or no clock has room for
   that many timeouts.
   */
  lemma RecoveryIsWithinSlotTimeIff(before: seq<Event>, event: Event)
    requires Recovers(before, event)
    ensures AlwaysWithin(before, event)
       <==> NothingBeforeSeed(before) || Timeouts(before) * SLOT_TIMEOUT > DURATION_MAX
  {
    if NothingBeforeSeed(before) || Timeouts(before) * SLOT_TIMEOUT > DURATION_MAX {
      forall start, before', event', clock |
        SameOrder(before' + [event'], before + [event]) && Timed(start, before' + [event'], clock)
        ensures event'.Slot? && WithinSlotTime(start, before', event')
      {
        OrderSplits(before', event', before, event);
        TimeoutsTakeTime(start, before' + [event'], clock);
        OrderDecides(before', before);
        assert (before' + [event'])[..|before|] == before';
        TimedRecoveryIsWithin(start, before', event', clock);
      }
    } else {
      OverstatingRun(before, event);
    }
  }

  /**
   One such run: a timeout, the seed, another timeout, the first extension. The slot took thirty
   seconds; the recovery reports sixty.
   */
  lemma RecoveryOverstatesExample(start: Instant, clock: seq<Instant>, before: seq<Event>, event: Event)
    requires start + 2 * SLOT_TIMEOUT <= DURATION_MAX
    requires clock == [start + SLOT_TIMEOUT, start + SLOT_TIMEOUT, start + 2 * SLOT_TIMEOUT, start + 2 * SLOT_TIMEOUT]
    requires before == [Timeout, Slot(7, start + SLOT_TIMEOUT), Timeout]
    requires event == Slot(8, start + 2 * SLOT_TIMEOUT)
    ensures Timed(start, before + [event], clock) && Recovers(before, event)
    ensures ExtensionTime(start, before, event) == SLOT_TIMEOUT
    ensures Repeated(Quiet(before), SLOT_TIMEOUT) == 2 * SLOT_TIMEOUT
  {
    var a, b := before[..1], before[..2];
    assert a[..|a| - 1] == [] && b[..|b| - 1] == a && before[..|before| - 1] == b;
    assert Accepted([]) == [] && Quiet([]) == 0;
    assert Accepted(a) == [] && Quiet(a) == 1;
    assert Accepted(b) == [Stamp(7, start + SLOT_TIMEOUT)] && Quiet(b) == 1;
    assert Accepted(before) == Accepted(b) && Quiet(before) == 2;
    assert clock[..1][..0] == [] && clock[..2][..1] == clock[..1] && clock[..3][..2] == clock[..2];
    assert (before + [event])[..3] == before;
    assert Timed(start, a[..0], clock[..1][..0]);
    assert Timed(start, a, clock[..1]);
    assert Timed(start, b, clock[..2]);
    assert Timed(start, before, clock[..3]);
    RepeatedIsMultiple(2, SLOT_TIMEOUT);
  }
}
