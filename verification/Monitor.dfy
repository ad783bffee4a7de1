/** The neighbour monitor of src/common/routing.py; time is an integer read from a nondecreasing clock. */
module Monitor {
  import opened Base
  import opened Ring

  type Seen = map<NodeId, int>

  function Expired(seen: Seen, now: int, timeout: int): set<NodeId> {
    set id | id in seen && now - seen[id] > timeout
  }

  /** The list comprehension of check_dead; the order of the list is that of the dict, here any order. */
  method TimedOut(seen: Seen, now: int, timeout: int) returns (dead: seq<NodeId>)
    ensures Distinct(dead)
    ensures forall id :: id in dead <==> id in seen && now - seen[id] > timeout
  {
    dead := [];
    var rest := seen.Keys;
    while rest != {}
      invariant rest <= seen.Keys && Distinct(dead)
      invariant forall id :: id in dead <==> id in Expired(seen, now, timeout) && id !in rest
      decreases |rest|
    {
      var id :| id in rest;
      if now - seen[id] > timeout {
        dead := dead + [id];
      }
      rest := rest - {id};
    }
  }

  class NeighborMonitor {
    const timeout: int
    var lastSeen: Seen

    constructor (t: int)
      ensures timeout == t && lastSeen == map[]
    {
      timeout := t;
      lastSeen := map[];
    }

    method HeartbeatReceived(id: NodeId, now: int)
      modifies this
      ensures lastSeen == Apply(timeout, old(lastSeen), Beat(id, now))
      ensures lastSeen == old(lastSeen)[id := now]
    {
      lastSeen := lastSeen[id := now];
    }

    /** Every expired neighbour is reported once, and dropped from tracking. */
    method CheckDead(now: int) returns (dead: seq<NodeId>)
      modifies this
      ensures Distinct(dead)
      ensures forall id :: id in dead <==> id in old(lastSeen) && now - old(lastSeen)[id] > timeout
      ensures lastSeen == Apply(timeout, old(lastSeen), Check(now))
      ensures lastSeen == old(lastSeen) - set id | id in dead
    {
      dead := TimedOut(lastSeen, now, timeout);
      var i := 0;
      while i < |dead|
        invariant i <= |dead|
        invariant forall id :: id in lastSeen <==> id in old(lastSeen) && id !in dead[..i]
        invariant forall id :: id in lastSeen ==> lastSeen[id] == old(lastSeen)[id]
      {
        lastSeen := lastSeen - {dead[i]};
        i := i + 1;
      }
    }

    method Forget(id: NodeId)
      modifies this
      ensures lastSeen == Apply(timeout, old(lastSeen), Drop(id))
      ensures lastSeen == old(lastSeen) - {id}
    {
      lastSeen := lastSeen - {id};
    }
  }

  // ---- runs ----

  datatype Event =
    | Beat(id: NodeId, at: int)
    | Check(at: int)
    | Drop(id: NodeId)

  function Apply(timeout: int, seen: Seen, e: Event): Seen {
    match e
    case Beat(id, at) => seen[id := at]
    case Check(at) => seen - Expired(seen, at, timeout)
    case Drop(id) => seen - {id}
  }

  /** What is tracked before the k-th event. */
  function Tracked(timeout: int, es: seq<Event>, k: nat): Seen
    requires k <= |es|
  {
    if k == 0 then map[] else Apply(timeout, Tracked(timeout, es, k - 1), es[k - 1])
  }

  /** Whom the k-th event reports dead. */
  function Reported(timeout: int, es: seq<Event>, k: nat): set<NodeId>
    requires k < |es|
  {
    if es[k].Check? then Expired(Tracked(timeout, es, k), es[k].at, timeout) else {}
  }

  /** The j-th event neither renews, drops nor reports id. */
  predicate Quiet(timeout: int, es: seq<Event>, j: nat, id: NodeId)
    requires j < |es|
  {
    !(es[j].Beat? && es[j].id == id) && !(es[j].Drop? && es[j].id == id) && id !in Reported(timeout, es, j)
  }

  /** The h-th event is the heartbeat of id that still counts before the k-th. */
  predicate Latest(timeout: int, es: seq<Event>, h: nat, k: nat, id: NodeId)
    requires k <= |es|
  {
    h < k && es[h].Beat? && es[h].id == id && forall j :: h < j < k ==> Quiet(timeout, es, j, id)
  }

  lemma {:induction false} TrackedSince(timeout: int, es: seq<Event>, h: nat, k: nat, id: NodeId)
    requires k <= |es| && Latest(timeout, es, h, k, id)
    ensures id in Tracked(timeout, es, k) && Tracked(timeout, es, k)[id] == es[h].at
  {
    if k > h + 1 {
      TrackedSince(timeout, es, h, k - 1, id);
      assert Quiet(timeout, es, k - 1, id);
    }
  }

  lemma {:induction false} TrackedHasBeat(timeout: int, es: seq<Event>, k: nat, id: NodeId) returns (h: nat)
    requires k <= |es| && id in Tracked(timeout, es, k)
    ensures Latest(timeout, es, h, k, id)
  {
    if es[k - 1].Beat? && es[k - 1].id == id {
      h := k - 1;
    } else {
      h := TrackedHasBeat(timeout, es, k - 1, id);
    }
  }

  /**
   * A check reports an id exactly when it has a heartbeat older than the timeout with, since then, no
   * newer heartbeat, no forget and no earlier report.
   */
  lemma ReportedIff(timeout: int, es: seq<Event>, k: nat, id: NodeId)
    requires k < |es| && es[k].Check?
    ensures id in Reported(timeout, es, k)
            <==> exists h: nat :: Latest(timeout, es, h, k, id) && es[k].at - es[h].at > timeout
  {
    if id in Reported(timeout, es, k) {
      var h := TrackedHasBeat(timeout, es, k, id);
      TrackedSince(timeout, es, h, k, id);
    }
    if h: nat :| Latest(timeout, es, h, k, id) && es[k].at - es[h].at > timeout {
      TrackedSince(timeout, es, h, k, id);
    }
  }

  /** Between two reports of one id lies a heartbeat. */
  lemma BeatBetweenReports(timeout: int, es: seq<Event>, j: nat, k: nat, id: NodeId)
    requires j < k < |es| && id in Reported(timeout, es, j) && id in Reported(timeout, es, k)
    ensures exists h :: j < h < k && es[h].Beat? && es[h].id == id
  {
    var h := TrackedHasBeat(timeout, es, k, id);
    assert !Quiet(timeout, es, j, id);
  }

  // ---- detection latency ----

  predicate Silent(es: seq<Event>, h: nat, m: nat, id: NodeId)
    requires m < |es|
  {
    forall j :: h < j <= m ==> es[j].Check? || es[j].id != id
  }

  /** Every check after h comes at most p after an earlier one, or after h itself. */
  predicate ChecksEvery(es: seq<Event>, h: nat, m: nat, p: int)
    requires h <= m < |es| && es[h].Beat?
  {
    forall j :: h < j <= m && es[j].Check? ==>
      exists i :: h <= i < j && (i == h || es[i].Check?) && es[j].at - es[i].at <= p
  }

  /** While no check has come late enough, the heartbeat at h is still the one that counts. */
  lemma {:induction false} StillLatest(timeout: int, es: seq<Event>, h: nat, k: nat, id: NodeId)
    requires h < k < |es| && es[h].Beat? && es[h].id == id && Silent(es, h, k, id)
    requires forall j :: h < j < k && es[j].Check? ==> es[j].at <= es[h].at + timeout
    ensures Latest(timeout, es, h, k, id)
  {
    if k > h + 1 {
      StillLatest(timeout, es, h, k - 1, id);
      TrackedSince(timeout, es, h, k - 1, id);
      assert Quiet(timeout, es, k - 1, id);
    }
  }

  lemma {:induction false} FirstLateCheck(es: seq<Event>, h: nat, m: nat, limit: int) returns (k: nat)
    requires h < m < |es| && es[m].Check? && es[m].at > limit
    ensures h < k <= m && es[k].Check? && es[k].at > limit
    ensures forall j :: h < j < k && es[j].Check? ==> es[j].at <= limit
    decreases m
  {
    if j :| h < j < m && es[j].Check? && es[j].at > limit {
      k := FirstLateCheck(es, h, j, limit);
    } else {
      k := m;
    }
  }

  /** With checks at most p apart, a silent neighbour is reported later than timeout and no later than timeout + p. */
  lemma DetectedInTime(timeout: nat, es: seq<Event>, h: nat, m: nat, id: NodeId, p: int) returns (k: nat)
    requires h < m < |es| && es[h].Beat? && es[h].id == id && Silent(es, h, m, id)
    requires ChecksEvery(es, h, m, p) && es[m].Check? && es[m].at > es[h].at + timeout
    ensures h < k <= m && id in Reported(timeout, es, k)
    ensures es[h].at + timeout < es[k].at <= es[h].at + timeout + p
  {
    k := FirstLateCheck(es, h, m, es[h].at + timeout);
    StillLatest(timeout, es, h, k, id);
    TrackedSince(timeout, es, h, k, id);
  }
}
