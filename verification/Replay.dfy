/**
 What the broadcast messages tell a consumer over a whole session: replaying them rebuilds the
 best chain exactly, and every block is broadcast and retracted in turns.
 */
module Replay {
  import opened Wrappers
  import opened BlockTree
  import opened Follower

  function Broadcast(m: BlocksExt): (s: seq<Hash>)
    ensures |s| == |m.blocks|
  {
    seq(|m.blocks|, i requires 0 <= i < |m.blocks| => m.blocks[i].hash)
  }

  function Retracted(m: BlocksExt): (s: seq<Hash>) {
    match m.maybeReorgData
    case None => []
    case Some(reorg) => seq(|reorg.retracted|, i requires 0 <= i < |reorg.retracted| => reorg.retracted[i].hash)
  }

  /** A consumer's view: drop the retracted suffix, which has to match in order, then append the blocks. */
  function Apply(path: seq<Hash>, m: BlocksExt): Option<seq<Hash>> {
    var k := |path| - |Retracted(m)|;
    if 0 <= k && path[k..] == Retracted(m) then Some(path[..k] + Broadcast(m)) else None
  }

  function ApplyAll(path: seq<Hash>, messages: seq<BlocksExt>): Option<seq<Hash>> {
    if messages == [] then
      Some(path)
    else
      match ApplyAll(path, messages[..|messages| - 1])
      case None => None
      case Some(before) => Apply(before, messages[|messages| - 1])
  }

  lemma ChangeLists(t: Headers, p: seq<Hash>, q: seq<Hash>, n: nat)
    requires 1 <= n <= |p| && n < |q|
    requires forall i | 0 <= i < |q| :: q[i] in t
    ensures Broadcast(Change(t, p, q, n).value) == q[n..]
    ensures Retracted(Change(t, p, q, n).value) == p[n..]
  {
  }

  lemma ApplyChange(t: Headers, p: seq<Hash>, q: seq<Hash>, n: nat)
    requires 1 <= n <= |p| && n < |q| && p[..n] == q[..n]
    requires forall i | 0 <= i < |q| :: q[i] in t
    ensures Apply(p, Change(t, p, q, n).value) == Some(q)
  {
    ChangeLists(t, p, q, n);
    assert q[..n] + q[n..] == q;
  }

  /** One message takes the path of the old best block to the path of the new one. */
  lemma ApplyAnnouncement(t: Headers, best: Hash, to: Hash)
    requires WellFormed(t) && best in t && to in t && Announcement(t, best, to).Some?
    ensures Apply(Path(t, best), Announcement(t, best, to).value) == Some(Path(t, to))
  {
    ApplyChange(t, Path(t, best), Path(t, to), Shared(t, best, to));
  }

  /** Replaying a session from the first best path gives the path of the current best block. */
  lemma {:induction false} ReplayRebuildsBestPath(t: Headers, start: HashAndNumber, events: seq<Import>)
    requires WellFormed(t) && InTree(t, start) && AllTruthful(t, events)
    ensures ApplyAll(Path(t, start.hash), Listen(t, start, events).messages)
         == Some(Path(t, Listen(t, start, events).best.hash))
  {
    if events != [] {
      var before, e := events[..|events| - 1], events[|events| - 1];
      ReplayRebuildsBestPath(t, start, before);
      var s := Listen(t, start, before);
      if Message(t, s.best.hash, e).Some? {
        ApplyAnnouncement(t, s.best.hash, e.hash);
        var m := Message(t, s.best.hash, e).value;
        assert (s.messages + [m])[..|s.messages|] == s.messages;
      }
    }
  }

  lemma SentPrefix(before: seq<BlocksExt>, m: Option<BlocksExt>, k: nat)
    requires k <= |Sent(before, m)|
    ensures k <= |before| || (k == |Sent(before, m)| && m.Some?)
    ensures k <= |before| ==> Sent(before, m)[..k] == before[..k]
    ensures Sent(before, m)[..|Sent(before, m)|] == Sent(before, m)
  {
  }

  /** Any first `k` messages are those of some first `j` imports. */
  lemma {:induction false} MessagePrefix(t: Headers, start: HashAndNumber, events: seq<Import>, k: nat)
    returns (j: nat)
    requires WellFormed(t) && InTree(t, start) && AllTruthful(t, events)
    requires k <= |Listen(t, start, events).messages|
    ensures j <= |events|
    ensures Listen(t, start, events).messages[..k] == Listen(t, start, events[..j]).messages
  {
    var s := Listen(t, start, events);
    if events == [] || k == |s.messages| {
      j := |events|;
      assert events[..j] == events;
      assert s.messages[..k] == s.messages;
    } else {
      var before, e := events[..|events| - 1], events[|events| - 1];
      var r := Listen(t, start, before);
      SentPrefix(r.messages, Message(t, r.best.hash, e), k);
      j := MessagePrefix(t, start, before, k);
      assert before[..j] == events[..j];
    }
  }

  /**
   Replay works at every point of a session: any first `k` messages are those of some first `j` imports,
   and replaying them gives the path of the best block after these.
   */
  lemma ReplayEveryPrefix(t: Headers, start: HashAndNumber, events: seq<Import>, k: nat)
    returns (j: nat)
    requires WellFormed(t) && InTree(t, start) && AllTruthful(t, events)
    requires k <= |Listen(t, start, events).messages|
    ensures j <= |events|
    ensures Listen(t, start, events).messages[..k] == Listen(t, start, events[..j]).messages
    ensures ApplyAll(Path(t, start.hash), Listen(t, start, events).messages[..k])
         == Some(Path(t, Listen(t, start, events[..j]).best.hash))
  {
    j := MessagePrefix(t, start, events, k);
    ReplayRebuildsBestPath(t, start, events[..j]);
  }

  /* ---------- Conservation ---------- */

  function TimesBroadcast(messages: seq<BlocksExt>, h: Hash): nat {
    if messages == [] then 0
    else TimesBroadcast(messages[..|messages| - 1], h) + multiset(Broadcast(messages[|messages| - 1]))[h]
  }

  function TimesRetracted(messages: seq<BlocksExt>, h: Hash): nat {
    if messages == [] then 0
    else TimesRetracted(messages[..|messages| - 1], h) + multiset(Retracted(messages[|messages| - 1]))[h]
  }

  ghost function OnPath(t: Headers, best: Hash, h: Hash): nat
    requires WellFormed(t) && best in t
  {
    if h in Path(t, best) then 1 else 0
  }

  lemma {:induction false} ApplyAllConserves(path: seq<Hash>, messages: seq<BlocksExt>, h: Hash)
    requires ApplyAll(path, messages).Some?
    ensures multiset(path)[h] + TimesBroadcast(messages, h)
         == multiset(ApplyAll(path, messages).value)[h] + TimesRetracted(messages, h)
  {
    if messages != [] {
      var m := messages[|messages| - 1];
      ApplyAllConserves(path, messages[..|messages| - 1], h);
      var before := ApplyAll(path, messages[..|messages| - 1]).value;
      var k := |before| - |Retracted(m)|;
      assert before == before[..k] + Retracted(m);
    }
  }

  ghost predicate Distinct(s: seq<Hash>) {
    forall i, j | 0 <= i < j < |s| :: s[i] != s[j]
  }

  lemma DistinctCounts(s: seq<Hash>, h: Hash)
    requires Distinct(s)
    ensures multiset(s)[h] == if h in s then 1 else 0
  {
    if h in s {
      var i :| 0 <= i < |s| && s[i] == h;
      var a, b := s[..i], s[i + 1..];
      assert h !in a && h !in b;
      assert s == a + [h] + b;
    }
  }

  lemma PathIsDistinct(t: Headers, best: Hash)
    requires WellFormed(t) && best in t
    ensures Distinct(Path(t, best))
  {
    var p := Path(t, best);
    forall i, j | 0 <= i < j < |p|
      ensures p[i] != p[j]
    {
      assert t[p[i]].number == i && t[p[j]].number == j;
    }
  }

  /** For every block: on the first best path, plus broadcasts, less retractions, is on the current one. */
  lemma Conservation(t: Headers, start: HashAndNumber, events: seq<Import>, h: Hash)
    requires WellFormed(t) && InTree(t, start) && AllTruthful(t, events)
    ensures OnPath(t, start.hash, h)
            + TimesBroadcast(Listen(t, start, events).messages, h)
            - TimesRetracted(Listen(t, start, events).messages, h)
         == OnPath(t, Listen(t, start, events).best.hash, h)
  {
    ReplayRebuildsBestPath(t, start, events);
    ApplyAllConserves(Path(t, start.hash), Listen(t, start, events).messages, h);
    var best := Listen(t, start, events).best.hash;
    PathIsDistinct(t, start.hash);
    PathIsDistinct(t, best);
    DistinctCounts(Path(t, start.hash), h);
    DistinctCounts(Path(t, best), h);
  }

  /** One more message keeps what it does not retract and adds its blocks. */
  lemma ApplyAllOneMore(path: seq<Hash>, messages: seq<BlocksExt>, i: nat)
    requires i < |messages| && ApplyAll(path, messages[..i + 1]).Some?
    ensures ApplyAll(path, messages[..i]).Some?
    ensures var before, after := ApplyAll(path, messages[..i]).value, ApplyAll(path, messages[..i + 1]).value;
            var k := |before| - |Retracted(messages[i])|;
            && 0 <= k && before == before[..k] + Retracted(messages[i])
            && after == before[..k] + Broadcast(messages[i])
  {
    assert messages[..i + 1][..i] == messages[..i];
  }

  /** A broadcast block stays on the replayed path until it is retracted. */
  lemma {:induction false} StaysUntilRetracted(path: seq<Hash>, messages: seq<BlocksExt>, i: nat, j: nat, h: Hash)
    requires i < j <= |messages| && h in Broadcast(messages[i])
    requires forall k | i < k < j :: h !in Retracted(messages[k])
    requires ApplyAll(path, messages[..j]).Some?
    ensures h in ApplyAll(path, messages[..j]).value
  {
    ApplyAllOneMore(path, messages, j - 1);
    if i < j - 1 {
      StaysUntilRetracted(path, messages, i, j - 1, h);
    }
  }

  lemma ReplayedPathIsDistinct(t: Headers, start: HashAndNumber, events: seq<Import>,
                               path: seq<Hash>, messages: seq<BlocksExt>, k: nat)
    requires WellFormed(t) && InTree(t, start) && AllTruthful(t, events)
    requires path == Path(t, start.hash) && messages == Listen(t, start, events).messages
    requires k <= |messages|
    ensures ApplyAll(path, messages[..k]).Some? && Distinct(ApplyAll(path, messages[..k]).value)
  {
    var j := ReplayEveryPrefix(t, start, events, k);
    PathIsDistinct(t, Listen(t, start, events[..j]).best.hash);
  }

  lemma RepeatedIsNotDistinct(a: seq<Hash>, b: seq<Hash>, h: Hash)
    requires h in a && h in b
    ensures !Distinct(a + b)
  {
    var i :| 0 <= i < |a| && a[i] == h;
    var j :| 0 <= j < |b| && b[j] == h;
    assert (a + b)[i] == (a + b)[|a| + j];
  }

  /** A message retracts nothing that it broadcasts. */
  lemma AnnouncementIsDisjoint(t: Headers, best: Hash, to: Hash, h: Hash)
    requires WellFormed(t) && best in t && to in t && Announcement(t, best, to).Some?
    requires h in Broadcast(Announcement(t, best, to).value)
    ensures h !in Retracted(Announcement(t, best, to).value)
  {
    var p, q, n := Path(t, best), Path(t, to), Shared(t, best, to);
    ChangeLists(t, p, q, n);
    if h in p[n..] {
      var i :| n <= i < |p| && p[i] == h;
      var j :| n <= j < |q| && q[j] == h;
      DisjointAbove(t, best, to, i, j);
      assert false;
    }
  }

  lemma {:induction false} MessagesAreDisjoint(t: Headers, start: HashAndNumber, events: seq<Import>,
                                               messages: seq<BlocksExt>, j: nat, h: Hash)
    requires WellFormed(t) && InTree(t, start) && AllTruthful(t, events)
    requires messages == Listen(t, start, events).messages
    requires j < |messages| && h in Broadcast(messages[j])
    ensures h !in Retracted(messages[j])
  {
    var before, e := events[..|events| - 1], events[|events| - 1];
    var s := Listen(t, start, before);
    if j < |s.messages| {
      MessagesAreDisjoint(t, start, before, s.messages, j, h);
    } else {
      AnnouncementIsDisjoint(t, s.best.hash, e.hash, h);
    }
  }

  lemma RebroadcastAmong(path: seq<Hash>, messages: seq<BlocksExt>, i: nat, j: nat, h: Hash)
    requires i < j < |messages| && h in Broadcast(messages[i]) && h in Broadcast(messages[j])
    requires h !in Retracted(messages[j])
    requires ApplyAll(path, messages[..j + 1]).Some?
    requires Distinct(ApplyAll(path, messages[..j + 1]).value)
    ensures exists k | i < k < j :: h in Retracted(messages[k])
  {
    if forall k | i < k < j :: h !in Retracted(messages[k]) {
      ApplyAllOneMore(path, messages, j);
      StaysUntilRetracted(path, messages, i, j, h);
      var before := ApplyAll(path, messages[..j]).value;
      var kept := before[..|before| - |Retracted(messages[j])|];
      RepeatedIsNotDistinct(kept, Broadcast(messages[j]), h);
      assert false;
    }
  }

  /** A block is not broadcast again unless a message strictly in between retracted it. */
  lemma RebroadcastNeedsRetraction(t: Headers, start: HashAndNumber, events: seq<Import>,
                                   messages: seq<BlocksExt>, i: nat, j: nat, h: Hash)
    requires WellFormed(t) && InTree(t, start) && AllTruthful(t, events)
    requires messages == Listen(t, start, events).messages
    requires i < j < |messages| && h in Broadcast(messages[i]) && h in Broadcast(messages[j])
    ensures exists k | i < k < j :: h in Retracted(messages[k])
  {
    var path := Path(t, start.hash);
    ReplayedPathIsDistinct(t, start, events, path, messages, j + 1);
    MessagesAreDisjoint(t, start, events, messages, j, h);
    RebroadcastAmong(path, messages, i, j, h);
  }
}
