/**
 The slot monitor. Its loop keeps a window of slots, a reference instant and the accumulated
 timeouts; what it alerts is stated here in terms of the events that came before, without state.
 */
module SlotMonitor {
  import opened Wrappers
  import opened Durations

  const WINDOW: nat := 600

  const SLOT_TIMEOUT: Duration := 30 * SECOND

  /** Instants are nanoseconds on the monotonic clock. */
  type Instant = n: nat | n <= DURATION_MAX

  datatype Config = Config(perSlotThreshold: Duration, avgSlotThreshold: Duration)

  /** A gossiped slot with the instant it was stamped with, or thirty seconds without any. */
  datatype Event = Slot(slot: nat, at: Instant) | Timeout

  datatype SlotDetails = SlotDetails(slot: nat, duration: Duration)

  datatype Alert =
    | TimekeeperStall(lastSlot: nat, stalled: Duration)
    | TimekeeperRecovery(slot: nat, recovered: Duration)
    | SlowSlot(slot: nat, previousSlot: nat, slotTime: Duration, threshold: Duration)
    | AvgSlowSlots(slot: nat, slotCount: nat, avgSlotTime: nat, threshold: Duration)

  /** The time from `a` to `b`, zero if `b` is earlier. */
  function DurationSince(b: Instant, a: Instant): Duration {
    if a <= b then b - a else 0
  }

  /* ---------- The bounded window ---------- */

  /**
   Which element a push into the full window discards: index 0 drops the oldest, the last index
   replaces the newest. Everything below holds for any choice.
   */
  type Victim = v: nat | v < WINDOW

  /** Pushes into a window that holds at most `size`. */
  function ForcePush(slots: seq<SlotDetails>, x: SlotDetails, size: nat, victim: nat): (r: seq<SlotDetails>)
    requires |slots| <= size && victim < size
    ensures |r| <= size && r != [] && r[|r| - 1] == x
  {
    if |slots| < size then slots + [x] else slots[..victim] + slots[victim + 1..] + [x]
  }

  /** What is kept of all that was pushed: everything while it fits, then the first `victim` and the newest. */
  ghost function Kept(pushed: seq<SlotDetails>, size: nat, victim: nat): (w: seq<SlotDetails>)
    requires victim < size
    ensures |w| == if |pushed| <= size then |pushed| else size
    ensures pushed != [] ==> w[|w| - 1] == pushed[|pushed| - 1]
  {
    if |pushed| <= size then pushed else pushed[..victim] + pushed[|pushed| - (size - victim)..]
  }

  /** Of three parts, the first and the last of which fill the window, those two are kept. */
  lemma KeptParts(first: seq<SlotDetails>, middle: seq<SlotDetails>, newest: seq<SlotDetails>)
    requires newest != []
    ensures Kept(first + middle + newest, |first| + |newest|, |first|) == first + newest
  {
    var pushed := first + middle + newest;
    if middle == [] {
      assert pushed == first + newest;
    } else {
      assert pushed[..|first|] == first && pushed[|pushed| - |newest|..] == newest;
    }
  }

  lemma PushParts(first: seq<SlotDetails>, newest: seq<SlotDetails>, x: SlotDetails)
    requires newest != []
    ensures ForcePush(first + newest, x, |first| + |newest|, |first|) == first + (newest[1..] + [x])
  {
    var full := first + newest;
    assert full[..|first|] == first && full[|first| + 1..] == newest[1..];
  }

  lemma SplitPushed(pushed: seq<SlotDetails>, x: SlotDetails, victim: nat, k: nat)
    requires victim <= k < |pushed|
    ensures pushed == pushed[..victim] + pushed[victim..k] + pushed[k..]
    ensures pushed + [x] == pushed[..victim] + pushed[victim..k + 1] + (pushed[k..][1..] + [x])
  {
  }

  lemma PushKept(pushed: seq<SlotDetails>, x: SlotDetails, size: nat, victim: nat)
    requires victim < size
    ensures ForcePush(Kept(pushed, size, victim), x, size, victim) == Kept(pushed + [x], size, victim)
  {
    if |pushed| >= size {
      var k := |pushed| - (size - victim);
      var first, newest := pushed[..victim], pushed[k..];
      SplitPushed(pushed, x, victim, k);
      KeptParts(first, pushed[victim..k], newest);
      PushParts(first, newest, x);
      KeptParts(first, pushed[victim..k + 1], newest[1..] + [x]);
    }
  }

  /** The monitor's window after all of `pushed`. */
  ghost function Window(pushed: seq<SlotDetails>, victim: Victim): (w: seq<SlotDetails>)
    ensures |w| == if |pushed| <= WINDOW then |pushed| else WINDOW
    ensures pushed != [] ==> w[|w| - 1] == pushed[|pushed| - 1]
  {
    Kept(pushed, WINDOW, victim)
  }

  lemma PushWindow(pushed: seq<SlotDetails>, x: SlotDetails, victim: Victim)
    ensures ForcePush(Window(pushed, victim), x, WINDOW, victim) == Window(pushed + [x], victim)
  {
    PushKept(pushed, x, WINDOW, victim);
  }

  /* ---------- Alerts in terms of the history ---------- */

  /** An accepted slot and its instant. */
  datatype Stamp = Stamp(slot: nat, at: Instant)

  ghost predicate Extends(accepted: seq<Stamp>, event: Event) {
    event.Slot? && accepted != [] && event.slot == accepted[|accepted| - 1].slot + 1
  }

  ghost predicate Accepts(accepted: seq<Stamp>, event: Event) {
    event.Slot? && (accepted == [] || Extends(accepted, event))
  }

  ghost function NextAccepted(accepted: seq<Stamp>, event: Event): seq<Stamp> {
    if Accepts(accepted, event) then accepted + [Stamp(event.slot, event.at)] else accepted
  }

  /** The seed slot and every slot that extended the chain. */
  ghost function Accepted(events: seq<Event>): seq<Stamp> {
    if events == [] then [] else NextAccepted(Accepted(events[..|events| - 1]), events[|events| - 1])
  }

  /** The instant the next duration is measured from. */
  ghost function Reference(start: Instant, accepted: seq<Stamp>): Instant {
    if accepted == [] then start else accepted[|accepted| - 1].at
  }

  /** The accepted slots with the time each took. */
  ghost function Details(start: Instant, accepted: seq<Stamp>): (d: seq<SlotDetails>)
    ensures |d| == |accepted|
    ensures forall i | 0 <= i < |d| :: d[i].slot == accepted[i].slot
  {
    if accepted == [] then []
    else
      var before, last := accepted[..|accepted| - 1], accepted[|accepted| - 1];
      Details(start, before) + [SlotDetails(last.slot, DurationSince(last.at, Reference(start, before)))]
  }

  ghost function NextQuiet(accepted: seq<Stamp>, quiet: nat, event: Event): nat {
    if event.Timeout? then quiet + 1 else if Extends(accepted, event) then 0 else quiet
  }

  /** The number of timeouts since the last extension, or since the start. The seed slot does not count. */
  ghost function Quiet(events: seq<Event>): nat {
    if events == [] then 0
    else NextQuiet(Accepted(events[..|events| - 1]), Quiet(events[..|events| - 1]), events[|events| - 1])
  }

  function Sum(slots: seq<SlotDetails>): nat {
    if slots == [] then 0 else Sum(slots[..|slots| - 1]) + slots[|slots| - 1].duration
  }

  ghost function Average(window: seq<SlotDetails>): nat
    requires window != []
  {
    Sum(window) / |window|
  }

  /** The accumulated duration that stands for a number of timeouts. */
  ghost function Fired(quiet: nat): Option<Duration> {
    if quiet == 0 then None else Some(Repeated(quiet, SLOT_TIMEOUT))
  }

  function RecoveryAlert(slot: nat, fired: Option<Duration>): seq<Alert> {
    if fired.Some? then [TimekeeperRecovery(slot, fired.value)] else []
  }

  function SlowAlert(config: Config, previousSlot: nat, x: SlotDetails): seq<Alert> {
    if x.duration > config.perSlotThreshold
    then [SlowSlot(x.slot, previousSlot, x.duration, config.perSlotThreshold)] else []
  }

  function AvgSlowAlert(config: Config, slot: nat, length: nat, average: nat): seq<Alert> {
    if length == WINDOW && average > config.avgSlotThreshold
    then [AvgSlowSlots(slot, length, average, config.avgSlotThreshold)] else []
  }

  /** What an extension sends, given all accepted slots up to and including it. */
  ghost function ExtensionAlerts(config: Config, quiet: nat, previousSlot: nat, details: seq<SlotDetails>,
                                 victim: Victim): seq<Alert>
    requires details != []
  {
    var x, w := details[|details| - 1], Window(details, victim);
    RecoveryAlert(x.slot, Fired(quiet)) + SlowAlert(config, previousSlot, x)
    + AvgSlowAlert(config, x.slot, |w|, Average(w))
  }

  /** What an event makes the monitor send, given the slots accepted and the timeouts counted before. */
  ghost function AlertsAt(config: Config, victim: Victim, start: Instant, accepted: seq<Stamp>, quiet: nat, event: Event)
    : seq<Alert>
  {
    if event.Timeout? then
      if accepted == [] then []
      else [TimekeeperStall(accepted[|accepted| - 1].slot, Repeated(quiet + 1, SLOT_TIMEOUT))]
    else if Extends(accepted, event) then
      ExtensionAlerts(config, quiet, accepted[|accepted| - 1].slot,
                      Details(start, NextAccepted(accepted, event)), victim)
    else
      []
  }

  ghost function Alerts(config: Config, victim: Victim, start: Instant, events: seq<Event>): seq<Alert> {
    if events == [] then []
    else
      var before := events[..|events| - 1];
      Alerts(config, victim, start, before)
      + AlertsAt(config, victim, start, Accepted(before), Quiet(before), events[|events| - 1])
  }

  /* ---------- The monitor ---------- */

  /** The fold over the window, divided by its length. */
  method AverageDuration(slots: seq<SlotDetails>) returns (avgSlotTime: nat)
    requires slots != []
    ensures avgSlotTime == Average(slots)
  {
    var total := 0;
    for i := 0 to |slots|
      invariant total == Sum(slots[..i])
    {
      assert slots[..i + 1][..i] == slots[..i];
      total := total + slots[i].duration;
    }
    assert slots[..|slots|] == slots;
    avgSlotTime := total / |slots|;
  }

  /** One extension of the slot chain: alerts, then the window moves. */
  method Extend(slots: seq<SlotDetails>, x: SlotDetails, lastTimeout: Option<Duration>, config: Config, victim: Victim,
                ghost details: seq<SlotDetails>, ghost quiet: nat)
    returns (newSlots: seq<SlotDetails>, sent: seq<Alert>)
    requires details != [] && slots == Window(details, victim) && lastTimeout == Fired(quiet)
    ensures newSlots == Window(details + [x], victim)
    ensures sent == ExtensionAlerts(config, quiet, details[|details| - 1].slot, details + [x], victim)
    ensures |newSlots| == 600 && Sum(newSlots) / 600 > config.avgSlotThreshold ==>
              && sent != []
              && sent[|sent| - 1] == AvgSlowSlots(x.slot, 600, Sum(newSlots) / 600, config.avgSlotThreshold)
    ensures !(|newSlots| == 600 && Sum(newSlots) / 600 > config.avgSlotThreshold) ==>
              forall alert | alert in sent :: !alert.AvgSlowSlots?
  {
    var lastSlot := slots[|slots| - 1];
    sent := RecoveryAlert(x.slot, lastTimeout) + SlowAlert(config, lastSlot.slot, x);
    PushWindow(details, x, victim);
    newSlots := ForcePush(slots, x, WINDOW, victim);
    var avgSlotTime := AverageDuration(newSlots);
    sent := sent + AvgSlowAlert(config, x.slot, |newSlots|, avgSlotTime);
  }

  lemma OneMoreEvent(config: Config, victim: Victim, start: Instant, events: seq<Event>, i: nat)
    requires i < |events|
    ensures var before, now, event := events[..i], events[..i + 1], events[i];
            && Alerts(config, victim, start, now)
               == Alerts(config, victim, start, before)
                  + AlertsAt(config, victim, start, Accepted(before), Quiet(before), event)
            && Accepted(now) == NextAccepted(Accepted(before), event)
            && Quiet(now) == NextQuiet(Accepted(before), Quiet(before), event)
  {
    assert events[..i + 1][..i] == events[..i];
  }

  lemma DetailsOneMore(start: Instant, accepted: seq<Stamp>, s: Stamp)
    ensures Details(start, accepted + [s])
         == Details(start, accepted) + [SlotDetails(s.slot, DurationSince(s.at, Reference(start, accepted)))]
  {
    assert (accepted + [s])[..|accepted|] == accepted;
  }

  lemma ExtensionSends(config: Config, victim: Victim, start: Instant, accepted: seq<Stamp>, quiet: nat, event: Event)
    requires Extends(accepted, event)
    ensures var details := Details(start, accepted);
            var x := SlotDetails(event.slot, DurationSince(event.at, Reference(start, accepted)));
            && Details(start, NextAccepted(accepted, event)) == details + [x]
            && AlertsAt(config, victim, start, accepted, quiet, event)
               == ExtensionAlerts(config, quiet, details[|details| - 1].slot, details + [x], victim)
  {
    DetailsOneMore(start, accepted, Stamp(event.slot, event.at));
  }

  /** The monitor's variables are what the accepted slots and the counted timeouts say. */
  ghost predicate Holds(victim: Victim, start: Instant, accepted: seq<Stamp>, quiet: nat,
                        slots: seq<SlotDetails>, lastInstant: Instant, timeoutFired: Option<Duration>)
  {
    && slots == Window(Details(start, accepted), victim)
    && lastInstant == Reference(start, accepted)
    && timeoutFired == Fired(quiet)
  }

  /** The seed slot is all there is in the window and sends nothing. */
  lemma SeedHolds(config: Config, victim: Victim, start: Instant, quiet: nat, slot: nat, now: Instant,
                  timeoutFired: Option<Duration>)
    requires timeoutFired == Fired(quiet)
    ensures AlertsAt(config, victim, start, [], quiet, Slot(slot, now)) == []
    ensures Holds(victim, start, NextAccepted([], Slot(slot, now)), NextQuiet([], quiet, Slot(slot, now)),
                  [SlotDetails(slot, DurationSince(now, start))], now, timeoutFired)
  {
    DetailsOneMore(start, [], Stamp(slot, now));
    assert Details(start, []) == [];
  }

  /** One turn of the loop for a slot message. */
  method HandleSlot(slot: nat, now: Instant, config: Config, victim: Victim,
                    slots: seq<SlotDetails>, lastInstant: Instant, timeoutFired: Option<Duration>,
                    ghost start: Instant, ghost accepted: seq<Stamp>, ghost quiet: nat)
    returns (slots': seq<SlotDetails>, lastInstant': Instant, timeoutFired': Option<Duration>, sent: seq<Alert>)
    requires Holds(victim, start, accepted, quiet, slots, lastInstant, timeoutFired)
    ensures sent == AlertsAt(config, victim, start, accepted, quiet, Slot(slot, now))
    ensures Holds(victim, start, NextAccepted(accepted, Slot(slot, now)), NextQuiet(accepted, quiet, Slot(slot, now)),
                  slots', lastInstant', timeoutFired')
  {
    slots', lastInstant', timeoutFired', sent := slots, lastInstant, timeoutFired, [];
    var x := SlotDetails(slot, DurationSince(now, lastInstant));
    if slots == [] {
      SeedHolds(config, victim, start, quiet, slot, now, timeoutFired);
      slots', lastInstant' := ForcePush(slots, x, WINDOW, victim), now;
      return;
    }
    if slot != slots[|slots| - 1].slot + 1 {
      assert !Accepts(accepted, Slot(slot, now));
      return;
    }
    ExtensionSends(config, victim, start, accepted, quiet, Slot(slot, now));
    slots', sent := Extend(slots, x, timeoutFired, config, victim, Details(start, accepted), quiet);
    timeoutFired', lastInstant' := None, now;
  }

  /** One turn of the loop for a timeout. */
  method HandleTimeout(config: Config, victim: Victim,
                       slots: seq<SlotDetails>, lastInstant: Instant, timeoutFired: Option<Duration>,
                       ghost start: Instant, ghost accepted: seq<Stamp>, ghost quiet: nat)
    returns (timeoutFired': Option<Duration>, sent: seq<Alert>)
    requires Holds(victim, start, accepted, quiet, slots, lastInstant, timeoutFired)
    ensures sent == AlertsAt(config, victim, start, accepted, quiet, Timeout)
    ensures Holds(victim, start, accepted, quiet + 1, slots, lastInstant, timeoutFired')
  {
    RepeatedOnceMore(quiet, SLOT_TIMEOUT);
    var stalled :=
      if timeoutFired.Some? then SaturatingAdd(timeoutFired.value, SLOT_TIMEOUT) else SLOT_TIMEOUT;
    sent := if slots != [] then [TimekeeperStall(slots[|slots| - 1].slot, stalled)] else [];
    timeoutFired' := Some(stalled);
  }

  /** The monitor's loop, over the events up to the end of its stream. */
  method MonitorSlots(events: seq<Event>, start: Instant, config: Config, victim: Victim)
    returns (alertSink: seq<Alert>, slots: seq<SlotDetails>, lastInstant: Instant, timeoutFired: Option<Duration>)
    ensures alertSink == Alerts(config, victim, start, events)
    ensures Holds(victim, start, Accepted(events), Quiet(events), slots, lastInstant, timeoutFired)
  {
    alertSink, slots, lastInstant, timeoutFired := [], [], start, None;
    for i := 0 to |events|
      invariant alertSink == Alerts(config, victim, start, events[..i])
      invariant Holds(victim, start, Accepted(events[..i]), Quiet(events[..i]), slots, lastInstant, timeoutFired)
    {
      ghost var accepted, quiet := Accepted(events[..i]), Quiet(events[..i]);
      OneMoreEvent(config, victim, start, events, i);
      var sent;
      match events[i]
      case Slot(slot, now) =>
        slots, lastInstant, timeoutFired, sent :=
          HandleSlot(slot, now, config, victim, slots, lastInstant, timeoutFired, start, accepted, quiet);
        alertSink := alertSink + sent;
      case Timeout =>
        timeoutFired, sent :=
          HandleTimeout(config, victim, slots, lastInstant, timeoutFired, start, accepted, quiet);
        alertSink := alertSink + sent;
    }
    assert events[..|events|] == events;
  }
}
