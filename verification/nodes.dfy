/** The server's table of clients and the reaper that culls it, sweeps taken as atomic. */
module Nodes {
  import opened Stats

  type Time = int

  /** The zero `time.Time`, which a lookup of a missing key yields. */
  const ZERO_TIME: Time := 0

  class StatsMap {
    var m: map<string, FuzzerStats>

    constructor ()
      ensures m == map[]
    {
      m := map[];
    }
  }

  class UpdatesMap {
    var m: map<string, Time>

    constructor ()
      ensures m == map[]
    {
      m := map[];
    }
  }

  /** Copying a `Nodes` struct copies the references: all copies share the two maps. */
  datatype Nodes = Nodes(Stats: StatsMap, updates: UpdatesMap)

  datatype Reaper = Reaper(Nodes: Nodes, Interval: Time)

  /** The contents of the two maps. */
  datatype Table = Table(stats: map<string, FuzzerStats>, updates: map<string, Time>)

  ghost function TableOf(n: Nodes): Table
    reads n.Stats, n.updates
  {
    Table(n.Stats.m, n.updates.m)
  }

  function Updated(t: Table, id: string, stats: FuzzerStats, now: Time): Table {
    Table(t.stats[id := stats], t.updates[id := now])
  }

  function Without(t: Table, ids: set<string>): Table {
    Table(t.stats - ids, t.updates - ids)
  }

  function LastUpdate(updates: map<string, Time>, id: string): Time {
    if id in updates then updates[id] else ZERO_TIME
  }

  /** The clients a sweep at `now` culls. */
  function Stale(t: Table, interval: Time, now: Time): set<string> {
    set id | id in t.stats && LastUpdate(t.updates, id) + interval < now
  }

  method NewNodes() returns (n: Nodes)
    ensures fresh(n.Stats) && fresh(n.updates) && TableOf(n) == Table(map[], map[])
  {
    var stats := new StatsMap();
    var updates := new UpdatesMap();
    n := Nodes(stats, updates);
  }

  method SetStats(n: Nodes, nodeId: string, stats: FuzzerStats, now: Time)
    modifies n.Stats, n.updates
    ensures TableOf(n) == Updated(old(TableOf(n)), nodeId, stats, now)
  {
    n.Stats.m := n.Stats.m[nodeId := stats];
    n.updates.m := n.updates.m[nodeId := now];
  }

  method DeleteNode(n: Nodes, nodeId: string)
    modifies n.Stats, n.updates
    ensures TableOf(n) == Without(old(TableOf(n)), {nodeId})
  {
    n.Stats.m := n.Stats.m - {nodeId};
    n.updates.m := n.updates.m - {nodeId};
  }

  /** The sweep ranges over the server's own `nodes.Stats` but looks up and deletes through the reaper's copy. */
  method CleanUpOldNodes(nodes: Nodes, r: Reaper, now: Time)
    modifies r.Nodes.Stats, r.Nodes.updates
    ensures TableOf(r.Nodes) ==
            Without(old(TableOf(r.Nodes)), Stale(Table(old(nodes.Stats.m), old(r.Nodes.updates.m)), r.Interval, now))
  {
    var left := nodes.Stats.m.Keys;
    ghost var stale := Stale(Table(nodes.Stats.m, r.Nodes.updates.m), r.Interval, now);
    ghost var before := TableOf(r.Nodes);
    while left != {}
      invariant left <= old(nodes.Stats.m.Keys)
      invariant TableOf(r.Nodes) == Without(before, stale - left)
      decreases left
    {
      var id :| id in left;
      assert LastUpdate(r.Nodes.updates.m, id) == LastUpdate(before.updates, id);
      if LastUpdate(r.Nodes.updates.m, id) + r.Interval < now {
        DeleteNode(r.Nodes, id);
        assert stale - (left - {id}) == stale - left + {id};
      } else {
        assert stale - (left - {id}) == stale - left;
      }
      left := left - {id};
    }
    assert stale - {} == stale;
  }

  /** As `SetupAndServe` wires them, the reaper shares the maps of the server's table. */
  method Setup(interval: Time) returns (nodes: Nodes, reaper: Reaper)
    ensures fresh(nodes.Stats) && fresh(nodes.updates) && TableOf(nodes) == Table(map[], map[])
    ensures reaper.Nodes == nodes && reaper.Interval == interval
  {
    nodes := NewNodes();
    reaper := Reaper(nodes, interval);
  }

  /** With that wiring a sweep culls exactly the stale clients, from the server's own table and from both maps. */
  method Sweep(nodes: Nodes, reaper: Reaper, now: Time)
    requires reaper.Nodes == nodes
    modifies nodes.Stats, nodes.updates
    ensures TableOf(nodes) == Swept(old(TableOf(nodes)), reaper.Interval, now)
  {
    CleanUpOldNodes(nodes, reaper, now);
  }

  function Swept(t: Table, interval: Time, now: Time): Table {
    Without(t, Stale(t, interval, now))
  }

  // ---------------------------------------------------------------- runs of updates and sweeps

  datatype Event = Update(id: string, stats: FuzzerStats, at: Time) | Tick(at: Time)

  function Play(events: seq<Event>, interval: Time): Table {
    if events == [] then Table(map[], map[])
    else
      var before := Play(events[..|events| - 1], interval);
      match events[|events| - 1]
      case Update(id, stats, at) => Updated(before, id, stats, at)
      case Tick(at) => Swept(before, interval, at)
  }

  /** The server's handlers and the reaper's loop, event by event. */
  method Serve(nodes: Nodes, reaper: Reaper, events: seq<Event>)
    requires reaper.Nodes == nodes && TableOf(nodes) == Table(map[], map[])
    modifies nodes.Stats, nodes.updates
    ensures TableOf(nodes) == Play(events, reaper.Interval)
  {
    for i := 0 to |events|
      invariant TableOf(nodes) == Play(events[..i], reaper.Interval)
    {
      assert events[..i + 1][..i] == events[..i];
      match events[i]
      case Update(id, stats, at) => SetStats(nodes, id, stats, at);
      case Tick(at) => Sweep(nodes, reaper, at);
    }
    assert events[..|events|] == events;
  }

  function Ticks(events: seq<Event>): nat {
    if events == [] then 0 else Ticks(events[..|events| - 1]) + if events[|events| - 1].Tick? then 1 else 0
  }

  /** When the ticker fires for the n-th time. */
  function Due(start: Time, interval: Time, n: nat): Time {
    if n == 0 then start else Due(start, interval, n - 1) + interval
  }

  /** One interval apart, the first after one interval. */
  lemma {:induction false} DueIs(start: Time, interval: Time, n: nat)
    ensures Due(start, interval, n) == start + n * interval
  {
    if n > 0 {
      DueIs(start, interval, n - 1);
      assert n * interval == (n - 1) * interval + interval;
    }
  }

  lemma {:induction false} DueMono(start: Time, interval: Time, m: nat, n: nat)
    requires interval >= 0 && m <= n
    ensures Due(start, interval, m) <= Due(start, interval, n)
    decreases n
  {
    if m < n {
      DueMono(start, interval, m, n - 1);
    }
  }

  /** The ticker fires once every interval, and everything else happens in between. */
  ghost predicate Timeline(events: seq<Event>, start: Time, interval: Time) {
    forall i | 0 <= i < |events| ::
      var n := Ticks(events[..i]);
      && Due(start, interval, n) <= events[i].at <= Due(start, interval, n + 1)
      && (events[i].Tick? ==> events[i].at == Due(start, interval, n + 1))
  }

  /** Both maps always have the same clients. */
  lemma {:induction false} SameClients(events: seq<Event>, interval: Time)
    ensures Play(events, interval).stats.Keys == Play(events, interval).updates.Keys
  {
    if events != [] {
      SameClients(events[..|events| - 1], interval);
    }
  }

  /** `events[p]` is the last sign of life of a client. */
  ghost predicate LastSeen(events: seq<Event>, p: nat, id: string, stats: FuzzerStats, u: Time) {
    && p < |events| && events[p] == Update(id, stats, u)
    && forall j | p < j < |events| && events[j].Update? :: events[j].id != id
  }

  /** A silent client stays until the first sweep later than its last update plus the interval, and is gone after it. */
  lemma {:induction false} PresentUntilStale(events: seq<Event>, interval: Time, p: nat, id: string,
                                             stats: FuzzerStats, u: Time)
    requires LastSeen(events, p, id, stats, u)
    ensures var t := Play(events, interval);
            && (id in t.stats <==> forall j | p < j < |events| && events[j].Tick? :: events[j].at <= u + interval)
            && (id in t.stats <==> id in t.updates)
            && (id in t.stats ==> t.stats[id] == stats && t.updates[id] == u)
  {
    SameClients(events, interval);
    var last := |events| - 1;
    if p < last {
      var front := events[..last];
      PresentUntilStale(front, interval, p, id, stats, u);
      SameClients(front, interval);
      assert forall j | p < j < last :: events[j] == front[j];
    }
  }

  lemma {:induction false} TicksMono(events: seq<Event>, i: nat, j: nat)
    requires i <= j <= |events|
    ensures Ticks(events[..i]) <= Ticks(events[..j])
    decreases j
  {
    if i < j {
      assert events[..j][..j - 1] == events[..j - 1];
      TicksMono(events, i, j - 1);
    }
  }

  /** The n-th tick is somewhere in the run. */
  lemma {:induction false} TickAt(events: seq<Event>, start: Time, interval: Time, n: nat) returns (j: nat)
    requires Timeline(events, start, interval) && 1 <= n <= Ticks(events)
    ensures j < |events| && events[j].Tick? && Ticks(events[..j]) == n - 1 && events[j].at == Due(start, interval, n)
  {
    var last := |events| - 1;
    var front := events[..last];
    if events[last].Tick? && n == Ticks(events) {
      j := last;
    } else {
      assert forall i | 0 <= i < last :: front[..i] == events[..i];
      j := TickAt(front, start, interval, n);
    }
  }

  lemma TickCounts(events: seq<Event>, j: nat)
    requires j < |events| && events[j].Tick?
    ensures Ticks(events[..j + 1]) == Ticks(events[..j]) + 1
  {
    assert events[..j + 1][..j] == events[..j];
  }

  lemma TickTime(events: seq<Event>, start: Time, interval: Time, j: nat)
    requires Timeline(events, start, interval) && j < |events| && events[j].Tick?
    ensures events[j].at == Due(start, interval, Ticks(events[..j]) + 1)
  {
  }

  lemma TicksBefore(events: seq<Event>, j: nat)
    requires j < |events| && events[j].Tick?
    ensures Ticks(events[..j]) + 1 <= Ticks(events)
  {
    TickCounts(events, j);
    TicksMono(events, j + 1, |events|);
    assert events[..|events|] == events;
  }

  /** No tick so far was later than the last one due. */
  lemma TicksDue(events: seq<Event>, start: Time, interval: Time, j: nat)
    requires interval >= 0 && Timeline(events, start, interval) && j < |events| && events[j].Tick?
    ensures events[j].at <= Due(start, interval, Ticks(events))
  {
    TickTime(events, start, interval, j);
    TicksBefore(events, j);
    DueMono(start, interval, Ticks(events[..j]) + 1, Ticks(events));
  }

  /** The last tick comes after an event that is more than an interval older. */
  lemma StaleTick(events: seq<Event>, start: Time, interval: Time, p: nat) returns (j: nat)
    requires interval >= 0 && Timeline(events, start, interval) && p < |events|
    requires Due(start, interval, Ticks(events)) > events[p].at + interval
    ensures p < j < |events| && events[j].Tick? && events[j].at == Due(start, interval, Ticks(events))
  {
    var m, n := Ticks(events[..p]), Ticks(events);
    if n <= m {
      DueMono(start, interval, n, m);
    }
    j := TickAt(events, start, interval, n);
    if j < p {
      TickCounts(events, j);
      TicksMono(events, j + 1, p);
    }
  }

  /** A client silent since `u` is there exactly as long as no sweep has come later than u + interval. So it is there
      through every sweep up to u + interval, and gone from u + 2 * interval on, every sweep due by then having
      happened. */
  lemma ReaperBound(events: seq<Event>, start: Time, interval: Time, p: nat, id: string, stats: FuzzerStats, u: Time,
                    now: Time)
    requires interval >= 0 && Timeline(events, start, interval) && LastSeen(events, p, id, stats, u)
    requires Due(start, interval, Ticks(events)) <= now < Due(start, interval, Ticks(events)) + interval
    ensures var t := Play(events, interval);
            && (id in t.stats <==> Due(start, interval, Ticks(events)) <= u + interval)
            && (id in t.updates <==> id in t.stats)
            && (now >= u + 2 * interval ==> id !in t.stats)
  {
    PresentUntilStale(events, interval, p, id, stats, u);
    if Due(start, interval, Ticks(events)) <= u + interval {
      forall j | p < j < |events| && events[j].Tick?
        ensures events[j].at <= u + interval
      {
        TicksDue(events, start, interval, j);
      }
    } else {
      var j := StaleTick(events, start, interval, p);
    }
  }
}
