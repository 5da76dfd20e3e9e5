/**
 The follower and the stall and reorg monitor together: what the monitor alerts on the follower's
 broadcasts, in terms of the block tree.
 */
module AlertsOfFollower {
  import opened Wrappers
  import opened BlockTree
  import opened TreeRoutes
  import opened Follower
  import opened Messages
  import StallMonitor

  /**
   The alert due when the best block moves from the tip of `p` to the tip of `q`, the last common
   block being at height `n - 1`: if the old tip is at least `max(1, threshold)` blocks above it.
   */
  ghost function DueAlong(p: seq<Hash>, q: seq<Hash>, n: nat, threshold: nat): seq<StallMonitor.Alert>
    requires 1 <= n <= |p| && n < |q|
  {
    var depth := (|p| - 1) - (n - 1);
    if depth >= 1 && depth >= threshold then
      [StallMonitor.Reorg(HashAndNumber(q[|q| - 1], |q| - 1), HashAndNumber(p[n - 1], n - 1),
                          Segment(q, n)[..|q| - n - 1], Segment(p, n))]
    else
      []
  }

  /** The reorg alert due when block `e` is imported: none, unless it becomes the best block. */
  ghost function DueAt(t: Headers, best: HashAndNumber, e: Import, threshold: nat): seq<StallMonitor.Alert>
    requires WellFormed(t) && InTree(t, best) && Truthful(t, e)
  {
    var p, q, n := Path(t, best.hash), Path(t, e.hash), Shared(t, best.hash, e.hash);
    if e.answer == Canonical && n < |q| then DueAlong(p, q, n, threshold) else []
  }

  /** All reorg alerts due over a run. */
  ghost function DueReorgs(t: Headers, start: HashAndNumber, events: seq<Import>, threshold: nat)
    : seq<StallMonitor.Alert>
    requires WellFormed(t) && InTree(t, start) && AllTruthful(t, events)
  {
    if events == [] then
      []
    else
      var before := events[..|events| - 1];
      DueReorgs(t, start, before, threshold)
      + DueAt(t, Listen(t, start, before).best, events[|events| - 1], threshold)
  }

  lemma AlertOfChange(t: Headers, p: seq<Hash>, q: seq<Hash>, n: nat, config: StallMonitor.Config)
    requires 1 <= n <= |p| && n < |q|
    requires forall i | 0 <= i < |q| :: q[i] in t && t[q[i]].number == i
    ensures Change(t, p, q, n).value.blocks != []
    ensures StallMonitor.ReorgAlert(config, Change(t, p, q, n).value)
         == DueAlong(p, q, n, config.reorgDepthThreshold)
  {
  }

  /** What the follower broadcasts for one import raises exactly the alert that is due. */
  lemma AlertOfMessage(t: Headers, best: HashAndNumber, e: Import, config: StallMonitor.Config)
    requires WellFormed(t) && InTree(t, best) && Truthful(t, e)
    ensures match Message(t, best.hash, e)
            case None => DueAt(t, best, e, config.reorgDepthThreshold) == []
            case Some(m) =>
              && m.blocks != []
              && StallMonitor.ReorgAlert(config, m) == DueAt(t, best, e, config.reorgDepthThreshold)
  {
    if Shared(t, best.hash, e.hash) < |Path(t, e.hash)| {
      AlertOfChange(t, Path(t, best.hash), Path(t, e.hash), Shared(t, best.hash, e.hash), config);
    }
  }

  lemma AlertsOfSent(config: StallMonitor.Config, messages: seq<BlocksExt>, m: Option<BlocksExt>,
                     due: seq<StallMonitor.Alert>)
    requires StallMonitor.AllHaveBlocks(messages)
    requires m.Some? ==> m.value.blocks != [] && StallMonitor.ReorgAlert(config, m.value) == due
    requires m.None? ==> due == []
    ensures StallMonitor.AllHaveBlocks(Sent(messages, m))
    ensures StallMonitor.ReorgAlerts(config, Sent(messages, m)) == StallMonitor.ReorgAlerts(config, messages) + due
  {
    if m.Some? {
      StallMonitor.ReorgAlertsOneMore(config, messages, m.value);
    }
  }

  /** Every broadcast message carries a block, and together they raise the alerts that are due. */
  lemma {:induction false} AlertsOfBroadcasts(t: Headers, start: HashAndNumber, events: seq<Import>,
                                              config: StallMonitor.Config)
    requires WellFormed(t) && InTree(t, start) && AllTruthful(t, events)
    ensures StallMonitor.AllHaveBlocks(Listen(t, start, events).messages)
    ensures StallMonitor.ReorgAlerts(config, Listen(t, start, events).messages)
         == DueReorgs(t, start, events, config.reorgDepthThreshold)
  {
    if events != [] {
      var before, e := events[..|events| - 1], events[|events| - 1];
      var s := Listen(t, start, before);
      AlertsOfBroadcasts(t, start, before, config);
      AlertOfMessage(t, s.best, e, config);
      AlertsOfSent(config, s.messages, Message(t, s.best.hash, e),
                   DueAt(t, s.best, e, config.reorgDepthThreshold));
    }
  }

  /**
   However the timeouts fall among the follower's broadcasts, the monitor can handle every message
   and its reorg alerts are the due ones, in order.
   */
  lemma ReorgAlertsAreDue(t: Headers, start: HashAndNumber, imports: seq<Import>,
                          events: seq<StallMonitor.Event>, config: StallMonitor.Config)
    requires WellFormed(t) && InTree(t, start) && AllTruthful(t, imports)
    requires StallMonitor.Messages(events) == Listen(t, start, imports).messages
    ensures StallMonitor.HaveBlocks(events)
    ensures StallMonitor.Reorgs(StallMonitor.Alerts(config, events))
         == DueReorgs(t, start, imports, config.reorgDepthThreshold)
  {
    AlertsOfBroadcasts(t, start, imports, config);
    StallMonitor.MessagesHaveBlocks(events);
    StallMonitor.ReorgsIgnoreTimeouts(config, events);
  }

  /**
   The alert tells of the move from `previous` to `best`: the common block followed by the enacted blocks
   and the new best block is a chain, and so is the common block followed by the retracted blocks,
   which end at the old best block.
   */
  ghost predicate TellsOf(t: Headers, previous: HashAndNumber, best: HashAndNumber, common: HashAndNumber,
                          alert: StallMonitor.Alert) {
    && alert.Reorg? && alert.bestBlock == best && alert.commonBlock == common
    && Follows(t, common, alert.enacted + [best])
    && Follows(t, common, alert.retracted)
    && alert.retracted != [] && alert.retracted[|alert.retracted| - 1] == previous
  }

  lemma SegmentEnds(t: Headers, h: Hash, p: seq<Hash>, n: nat)
    requires h in t && IsPath(t, h, p) && n < |p|
    ensures Segment(p, n)[|p| - n - 1] == HashAndNumber(h, t[h].number)
  {
  }

  lemma BranchesTellOf(t: Headers, common: HashAndNumber, retracted: seq<HashAndNumber>, enacted: seq<HashAndNumber>)
    requires Follows(t, common, retracted) && Follows(t, common, enacted) && retracted != [] && enacted != []
    ensures var best := enacted[|enacted| - 1];
            TellsOf(t, retracted[|retracted| - 1], best, common,
                    StallMonitor.Reorg(best, common, enacted[..|enacted| - 1], retracted))
  {
    assert enacted[..|enacted| - 1] + [enacted[|enacted| - 1]] == enacted;
  }

  lemma DueTellsOf(t: Headers, a: Hash, b: Hash, p: seq<Hash>, q: seq<Hash>, n: nat, threshold: nat)
    requires a in t && b in t && IsPath(t, a, p) && IsPath(t, b, q)
    requires 1 <= n <= |p| && n < |q| && p[n - 1] == q[n - 1]
    ensures var due := DueAlong(p, q, n, threshold);
            && (due != [] <==> |p| >= n + 1 && |p| >= n + threshold)
            && (due != [] ==>
                && |due| == 1
                && TellsOf(t, HashAndNumber(a, t[a].number), HashAndNumber(b, t[b].number),
                           HashAndNumber(p[n - 1], n - 1), due[0]))
  {
    if n < |p| {
      SegmentFollows(t, a, p, n);
      SegmentFollows(t, b, q, n);
      SegmentEnds(t, a, p, n);
      SegmentEnds(t, b, q, n);
      BranchesTellOf(t, HashAndNumber(p[n - 1], n - 1), Segment(p, n), Segment(q, n));
    }
  }

  /**
   An alert is due exactly when the import becomes the best block and the old best block is at least
   `max(1, threshold)` above the highest common ancestor; it then tells of that move.
   */
  lemma AlertIffDeepReorg(t: Headers, best: HashAndNumber, e: Import, threshold: nat, c: Hash)
    requires WellFormed(t) && InTree(t, best) && Truthful(t, e)
    requires IsHighestCommonAncestor(t, best.hash, e.hash, c)
    ensures DueAt(t, best, e, threshold) != [] <==>
            (&& e.answer == Canonical && e.hash !in Path(t, best.hash)
             && best.number >= t[c].number + 1 && best.number >= t[c].number + threshold)
    ensures var due := DueAt(t, best, e, threshold);
            due != [] ==>
              && |due| == 1
              && TellsOf(t, best, HashAndNumber(e.hash, e.header.number), HashAndNumber(c, t[c].number), due[0])
  {
    var p, q, n := Path(t, best.hash), Path(t, e.hash), Shared(t, best.hash, e.hash);
    CommonBlockIsHighest(t, best.hash, e.hash, c);
    OnPathIff(t, best.hash, e.hash);
    if n < |q| {
      PathsPart(t, best.hash, e.hash);
      DueTellsOf(t, best.hash, e.hash, p, q, n, threshold);
    }
  }

  /* ---------- Stalls and recoveries name the follower's best block ---------- */

  lemma LastBlockOfNewest(before: Listener, after: Listener, tip: HashAndNumber)
    requires SentOneMore(before, after, tip)
    ensures after.messages != [] && StallMonitor.IsLastBlock(after.messages[|after.messages| - 1], after.best)
  {
  }

  /** The newest message ends with the best block. */
  lemma {:induction false} LastSentIsBest(t: Headers, start: HashAndNumber, imports: seq<Import>)
    requires WellFormed(t) && InTree(t, start) && AllTruthful(t, imports)
    ensures var s := Listen(t, start, imports);
            if s.messages == [] then s.best == start
            else StallMonitor.IsLastBlock(s.messages[|s.messages| - 1], s.best)
  {
    if imports != [] {
      var before, e := imports[..|imports| - 1], imports[|imports| - 1];
      assert imports == before + [e];
      var s, s' := Listen(t, start, before), Listen(t, start, imports);
      ListenerMoves(t, start, before, e);
      if s' == s {
        LastSentIsBest(t, start, before);
      } else {
        LastBlockOfNewest(s, s', HashAndNumber(e.hash, t[e.hash].number));
      }
    }
  }

  /** Before the timeouts at the end comes the last message, if there is one. */
  lemma {:induction false} LastMessage(events: seq<StallMonitor.Event>, j: nat)
    requires StallMonitor.TimeoutsFrom(events, j)
    ensures var messages := StallMonitor.Messages(events);
            if j == 0 then messages == []
            else messages != [] && messages[|messages| - 1] == events[j - 1].message
  {
    if j < |events| {
      LastMessage(events[..|events| - 1], j);
    }
  }

  lemma BroadcastsHaveBlocks(t: Headers, start: HashAndNumber, imports: seq<Import>, events: seq<StallMonitor.Event>)
    requires WellFormed(t) && InTree(t, start) && AllTruthful(t, imports)
    requires StallMonitor.Messages(events) == Listen(t, start, imports).messages
    ensures StallMonitor.HaveBlocks(events)
  {
    AlertsOfBroadcasts(t, start, imports, StallMonitor.Config(0, 0));
    StallMonitor.MessagesHaveBlocks(events);
  }

  lemma OneLastBlock(m: BlocksExt, a: HashAndNumber, b: HashAndNumber)
    requires StallMonitor.IsLastBlock(m, a) && StallMonitor.IsLastBlock(m, b)
    ensures a == b
  {
  }

  /**
   A timeout after the follower has broadcast something sends one stall, for the follower's best block;
   before that it sends nothing.
   */
  lemma StallNamesBest(t: Headers, start: HashAndNumber, imports: seq<Import>, events: seq<StallMonitor.Event>, n: nat,
                       j: nat, config: StallMonitor.Config) returns (sent: seq<StallMonitor.Alert>)
    requires WellFormed(t) && InTree(t, start) && AllTruthful(t, imports)
    requires |events| == n + 1 && events[n].Timeout? && StallMonitor.TimeoutsFrom(events[..n], j)
    requires StallMonitor.Messages(events[..n]) == Listen(t, start, imports).messages
    ensures StallMonitor.HaveBlocks(events)
    ensures StallMonitor.Alerts(config, events) == StallMonitor.Alerts(config, events[..n]) + sent
    ensures if Listen(t, start, imports).messages == [] then sent == []
            else |sent| == 1 && sent[0].ChainStall? && sent[0].lastBlock == Listen(t, start, imports).best
  {
    assert StallMonitor.Messages(events) == StallMonitor.Messages(events[..n]);
    BroadcastsHaveBlocks(t, start, imports, events);
    sent := StallMonitor.TimeoutSends(config, events, n, j);
    LastMessage(events[..n], j);
    LastSentIsBest(t, start, imports);
    if j > 0 {
      OneLastBlock(events[j - 1].message, sent[0].lastBlock, Listen(t, start, imports).best);
    }
  }

  /**
   When the follower broadcasts a message for import `e` after timeouts, the recovery is for that
   import, which is then the best block.
   */
  lemma RecoveryNamesImport(t: Headers, start: HashAndNumber, before: seq<Import>, e: Import,
                            events: seq<StallMonitor.Event>, n: nat, j: nat, config: StallMonitor.Config)
    returns (recovery: seq<StallMonitor.Alert>, reorg: seq<StallMonitor.Alert>)
    requires WellFormed(t) && InTree(t, start) && AllTruthful(t, before) && AllTruthful(t, before + [e])
    requires |events| == n + 1 && events[n].Blocks? && StallMonitor.TimeoutsFrom(events[..n], j)
    requires StallMonitor.Messages(events[..n]) == Listen(t, start, before).messages
    requires StallMonitor.Messages(events) == Listen(t, start, before + [e]).messages
    ensures StallMonitor.HaveBlocks(events)
    ensures StallMonitor.Alerts(config, events) == StallMonitor.Alerts(config, events[..n]) + (recovery + reorg)
    ensures StallMonitor.ReportsReorg(config, events[n].message, reorg)
    ensures Listen(t, start, before + [e]).best == HashAndNumber(e.hash, t[e.hash].number)
    ensures if j == n then recovery == []
            else
              && |recovery| == 1 && recovery[0].ChainRecovery?
              && recovery[0].bestBlock == HashAndNumber(e.hash, t[e.hash].number)
  {
    BroadcastsHaveBlocks(t, start, before + [e], events);
    recovery, reorg := StallMonitor.MessageSends(config, events, n, j);
    ListenerMoves(t, start, before, e);
    LastMessage(events, n + 1);
    LastSentIsBest(t, start, before + [e]);
    if j < n {
      OneLastBlock(events[n].message, recovery[0].bestBlock, Listen(t, start, before + [e]).best);
    }
  }
}
