/** The server's client table at the granularity of single lock operations and map accesses. */
module Locks {
  import opened Text
  import opened Stats
  import opened Nodes

  // ---------------------------------------------------------------- a readers-writer lock

  /** What a thread is doing with a lock. A pending writer keeps new readers out and waits for the present ones. */
  datatype Use = Out | Pending | Writing | Reading

  /** `gate` is the one thread past the writers' mutex. */
  datatype Lock = Lock(gate: Option<nat>, held: bool, readers: set<nat>)

  const FREE := Lock(None, false, {})

  predicate CanSwitch(l: Lock, was: Use, use: Use) {
    match use
    case Pending => was == Pending || l.gate.None?
    case Writing => was == Writing || l.readers == {}
    case Reading => was == Reading || l.gate.None?
    case Out => true
  }

  function Switch(l: Lock, t: nat, was: Use, use: Use): Lock {
    if was == use then l
    else
      match use
      case Pending => l.(gate := Some(t))
      case Writing => l.(held := true)
      case Reading => l.(readers := l.readers + {t})
      case Out => if was == Reading then l.(readers := l.readers - {t}) else Lock(None, false, l.readers)
  }

  /** Threads go from out to pending to writing and back, or from out to reading and back. */
  predicate Follows(was: Use, use: Use) {
    was == use || use == Out || (was == Out && use != Writing) || (was == Pending && use == Writing)
  }

  ghost predicate LockOk(l: Lock, uses: seq<Use>) {
    && (forall t | 0 <= t < |uses| :: uses[t] in {Pending, Writing} <==> l.gate == Some(t))
    && (l.gate.Some? ==> l.gate.value < |uses| && (l.held <==> uses[l.gate.value] == Writing))
    && (l.gate.None? ==> !l.held)
    && (forall t: nat :: t in l.readers <==> t < |uses| && uses[t] == Reading)
    && (l.held ==> l.readers == {})
  }

  lemma SwitchOk(l: Lock, uses: seq<Use>, t: nat, use: Use)
    requires LockOk(l, uses) && t < |uses|
    requires Follows(uses[t], use) && CanSwitch(l, uses[t], use)
    ensures LockOk(Switch(l, t, uses[t], use), uses[t := use])
  {
  }

  lemma EnterOk(l: Lock, uses: seq<Use>)
    requires LockOk(l, uses)
    ensures LockOk(l, uses + [Out])
  {
  }

  // ---------------------------------------------------------------- the threads

  /** The position of a thread in `setStats` or `deleteNode`: what it does next. */
  datatype Pc = SLock | SWait | WriteStats | ULock | UWait | WriteUpdates | UUnlock | SUnlock

  datatype ReaderPc = RLock | Read | RUnlock

  /** The sweep that began at `began` found a client's time too old when `seen` calls had completed. */
  datatype Judgement = Judgement(interval: Time, began: Time, seen: nat)

  datatype Thread =
    | Set(id: string, stats: FuzzerStats, at: Time, pc: Pc)
    | Delete(id: string, pc: Pc, why: Option<Judgement>)
    | Reader(rpc: ReaderPc)
    | Reap(id: string, interval: Time, now: Time)   // the sweep has come to `id` and now looks up its time
    | Done

  function NextPc(pc: Pc): Pc {
    match pc
    case SLock => SWait
    case SWait => WriteStats
    case WriteStats => ULock
    case ULock => UWait
    case UWait => WriteUpdates
    case WriteUpdates => UUnlock
    case UUnlock => SUnlock
    case SUnlock => SUnlock
  }

  /** `setStats` writes both maps under both locks. `deleteNode` takes the first lock for writing and the second, before
      it touches either map, for reading only. */
  function NextDelete(pc: Pc): Pc {
    match pc
    case SLock => SWait
    case SWait => ULock
    case ULock | UWait => WriteStats
    case WriteStats => WriteUpdates
    case WriteUpdates => UUnlock
    case UUnlock | SUnlock => SUnlock
  }

  /** The thread after its next step. `seen` is the number of calls completed so far. */
  function Next(th: Thread, updates: map<string, Time>, now: Time, seen: nat): Thread {
    match th
    case Set(id, stats, at, pc) =>
      if pc == SUnlock then Done else Set(id, stats, if pc == WriteUpdates then now else at, NextPc(pc))
    case Delete(id, pc, why) => if pc == SUnlock then Done else Delete(id, NextDelete(pc), why)
    case Reader(pc) => if pc == RLock then Reader(Read) else if pc == Read then Reader(RUnlock) else Done
    case Reap(id, interval, began) =>
      if LastUpdate(updates, id) + interval < began then Delete(id, SLock, Some(Judgement(interval, began, seen)))
      else Done
    case Done => Done
  }

  function StatsUse(th: Thread): Use {
    match th
    case Set(_, _, _, pc) => if pc == SLock then Out else if pc == SWait then Pending else Writing
    case Delete(_, pc, _) => if pc == SLock then Out else if pc == SWait then Pending else Writing
    case Reader(pc) => if pc == RLock then Out else Reading
    case Reap(_, _, _) => Out
    case Done => Out
  }

  function UpdatesUse(th: Thread): Use {
    match th
    case Set(_, _, _, pc) => if pc == UWait then Pending else if pc in {WriteUpdates, UUnlock} then Writing else Out
    case Delete(_, pc, _) => if pc in {WriteStats, WriteUpdates, UUnlock} then Reading else Out
    case Reader(_) => Out
    case Reap(_, _, _) => Out
    case Done => Out
  }

  // ---------------------------------------------------------------- steps

  /** A completed call, as its caller sees it. */
  datatype Call = Called(id: string, stats: FuzzerStats, at: Time) | Deleted(id: string)

  datatype State = State(table: Table, statsLock: Lock, updatesLock: Lock, threads: seq<Thread>, history: seq<Call>)

  datatype Action = Start(th: Thread) | Go(t: nat, now: Time)

  predicate Startable(table: Table, th: Thread) {
    match th
    case Set(_, _, _, pc) => pc == SLock
    case Delete(_, pc, why) => pc == SLock && why.None?
    case Reader(pc) => pc == RLock
    case Reap(id, _, _) => id in table.stats
    case Done => true
  }

  predicate Enabled(s: State, a: Action) {
    match a
    case Start(th) => Startable(s.table, th)
    case Go(t, now) =>
      && t < |s.threads| && !s.threads[t].Done?
      && var th := s.threads[t];
         var th' := Next(th, s.table.updates, now, |s.history|);
         && CanSwitch(s.statsLock, StatsUse(th), StatsUse(th'))
         && CanSwitch(s.updatesLock, UpdatesUse(th), UpdatesUse(th'))
  }

  function Access(th: Thread, table: Table, now: Time): Table {
    match th
    case Set(id, stats, _, pc) =>
      if pc == WriteStats then table.(stats := table.stats[id := stats])
      else if pc == WriteUpdates then table.(updates := table.updates[id := now])
      else table
    case Delete(id, pc, _) =>
      if pc == WriteStats then table.(stats := table.stats - {id})
      else if pc == WriteUpdates then table.(updates := table.updates - {id})
      else table
    case Reader(_) => table
    case Reap(_, _, _) => table
    case Done => table
  }

  /** The calls that take effect when a thread releases the first lock. */
  function Effect(th: Thread): seq<Call> {
    match th
    case Set(id, stats, at, pc) => if pc == SUnlock then [Called(id, stats, at)] else []
    case Delete(id, pc, _) => if pc == SUnlock then [Deleted(id)] else []
    case Reader(_) => []
    case Reap(_, _, _) => []
    case Done => []
  }

  function Step(s: State, a: Action): State
    requires Enabled(s, a)
  {
    match a
    case Start(th) => s.(threads := s.threads + [th])
    case Go(t, now) =>
      var th := s.threads[t];
      var th' := Next(th, s.table.updates, now, |s.history|);
      State(Access(th, s.table, now),
            Switch(s.statsLock, t, StatsUse(th), StatsUse(th')),
            Switch(s.updatesLock, t, UpdatesUse(th), UpdatesUse(th')),
            s.threads[t := th'],
            s.history + Effect(th))
  }

  const INIT := State(Table(map[], map[]), FREE, FREE, [], [])

  ghost predicate Run(s: State, acts: seq<Action>, s': State)
    decreases |acts|
  {
    if acts == [] then s' == s else Enabled(s, acts[0]) && Run(Step(s, acts[0]), acts[1..], s')
  }

  ghost predicate Reachable(s: State) {
    exists acts :: Run(INIT, acts, s)
  }

  // ---------------------------------------------------------------- the invariant

  /** What a series of atomic calls makes of the empty table. */
  function Replay(history: seq<Call>): Table {
    if history == [] then Table(map[], map[])
    else
      var before := Replay(history[..|history| - 1]);
      match history[|history| - 1]
      case Called(id, stats, at) => Updated(before, id, stats, at)
      case Deleted(id) => Without(before, {id})
  }

  /** The table while a thread that holds the first lock for writing is at work on it. */
  ghost predicate Midway(th: Thread, before: Table, table: Table) {
    match th
    case Set(id, stats, at, pc) =>
      if pc in {SLock, SWait, WriteStats} then table == before
      else if pc in {ULock, UWait, WriteUpdates} then table == before.(stats := before.stats[id := stats])
      else table == Updated(before, id, stats, at)
    case Delete(id, pc, _) =>
      if pc in {SLock, SWait, ULock, UWait, WriteStats} then table == before
      else if pc == WriteUpdates then table == before.(stats := before.stats - {id})
      else table == Without(before, {id})
    case Reader(_) => table == before
    case Reap(_, _, _) => table == before
    case Done => table == before
  }

  ghost predicate TableOk(table: Table, statsLock: Lock, threads: seq<Thread>, history: seq<Call>) {
    if statsLock.held && statsLock.gate.Some? && statsLock.gate.value < |threads|
    then Midway(threads[statsLock.gate.value], Replay(history), table)
    else table == Replay(history)
  }

  function StatsUses(threads: seq<Thread>): (uses: seq<Use>)
    ensures |uses| == |threads|
  {
    seq(|threads|, t requires 0 <= t < |threads| => StatsUse(threads[t]))
  }

  function UpdatesUses(threads: seq<Thread>): (uses: seq<Use>)
    ensures |uses| == |threads|
  {
    seq(|threads|, t requires 0 <= t < |threads| => UpdatesUse(threads[t]))
  }

  ghost predicate Inv(s: State) {
    && LockOk(s.statsLock, StatsUses(s.threads))
    && LockOk(s.updatesLock, UpdatesUses(s.threads))
    && TableOk(s.table, s.statsLock, s.threads, s.history)
  }

  lemma NextFollows(th: Thread, updates: map<string, Time>, now: Time, seen: nat)
    ensures Follows(StatsUse(th), StatsUse(Next(th, updates, now, seen)))
    ensures Follows(UpdatesUse(th), UpdatesUse(Next(th, updates, now, seen)))
  {
  }

  lemma StartInv(s: State, th: Thread)
    requires Inv(s) && Enabled(s, Start(th))
    ensures Inv(Step(s, Start(th)))
  {
    EnterOk(s.statsLock, StatsUses(s.threads));
    EnterOk(s.updatesLock, UpdatesUses(s.threads));
    assert StatsUses(s.threads + [th]) == StatsUses(s.threads) + [Out];
    assert UpdatesUses(s.threads + [th]) == UpdatesUses(s.threads) + [Out];
  }

  lemma LocksStep(s: State, t: nat, now: Time)
    requires Inv(s) && Enabled(s, Go(t, now))
    ensures var s' := Step(s, Go(t, now));
            && LockOk(s'.statsLock, StatsUses(s'.threads))
            && LockOk(s'.updatesLock, UpdatesUses(s'.threads))
  {
    var th := s.threads[t];
    var th' := Next(th, s.table.updates, now, |s.history|);
    NextFollows(th, s.table.updates, now, |s.history|);
    SwitchOk(s.statsLock, StatsUses(s.threads), t, StatsUse(th'));
    SwitchOk(s.updatesLock, UpdatesUses(s.threads), t, UpdatesUse(th'));
    assert StatsUses(s.threads[t := th']) == StatsUses(s.threads)[t := StatsUse(th')];
    assert UpdatesUses(s.threads[t := th']) == UpdatesUses(s.threads)[t := UpdatesUse(th')];
  }

  /** A thread that holds the first lock for writing goes on with its own work. */
  lemma OwnerStep(th: Thread, before: Table, table: Table, now: Time, seen: nat)
    requires StatsUse(th) == Writing && Midway(th, before, table)
    ensures var th' := Next(th, table.updates, now, seen);
            && (StatsUse(th') == Writing ==> Midway(th', before, Access(th, table, now)) && Effect(th) == [])
            && (StatsUse(th') != Writing ==> th' == Done)
  {
  }

  lemma OwnerLeaves(th: Thread, history: seq<Call>, table: Table, now: Time)
    requires StatsUse(th) == Writing && Midway(th, Replay(history), table)
    requires Next(th, table.updates, now, |history|) == Done
    ensures Access(th, table, now) == table == Replay(history + Effect(th))
  {
    assert |Effect(th)| == 1;
    assert (history + Effect(th))[..|history|] == history;
  }

  lemma OtherStep(th: Thread, updates: map<string, Time>, table: Table, now: Time, seen: nat)
    requires StatsUse(th) != Writing
    ensures Access(th, table, now) == table && Effect(th) == []
    ensures StatsUse(Next(th, updates, now, seen)) == Writing ==>
              forall before :: Midway(Next(th, updates, now, seen), before, before)
  {
  }

  lemma TableStep(s: State, t: nat, now: Time)
    requires Inv(s) && Enabled(s, Go(t, now))
    ensures var s' := Step(s, Go(t, now)); TableOk(s'.table, s'.statsLock, s'.threads, s'.history)
  {
    var th := s.threads[t];
    assert StatsUses(s.threads)[t] == StatsUse(th);
    LocksStep(s, t, now);
    assert StatsUses(Step(s, Go(t, now)).threads)[t] == StatsUse(Next(th, s.table.updates, now, |s.history|));
    if StatsUse(th) == Writing {
      OwnerStep(th, Replay(s.history), s.table, now, |s.history|);
      if StatsUse(Next(th, s.table.updates, now, |s.history|)) != Writing {
        OwnerLeaves(th, s.history, s.table, now);
      } else {
        assert s.history + [] == s.history;
      }
    } else {
      OtherStep(th, s.table.updates, s.table, now, |s.history|);
      assert s.history + [] == s.history;
    }
  }

  lemma StepInv(s: State, a: Action)
    requires Inv(s) && Enabled(s, a)
    ensures Inv(Step(s, a))
  {
    match a
    case Start(th) => StartInv(s, th);
    case Go(t, now) =>
      LocksStep(s, t, now);
      TableStep(s, t, now);
  }

  lemma {:induction false} RunInv(s: State, acts: seq<Action>, s': State)
    requires Inv(s) && Run(s, acts, s')
    ensures Inv(s')
    decreases |acts|
  {
    if acts != [] {
      StepInv(s, acts[0]);
      RunInv(Step(s, acts[0]), acts[1..], s');
    }
  }

  lemma ReachableInv(s: State)
    requires Reachable(s)
    ensures Inv(s)
  {
    var acts :| Run(INIT, acts, s);
    RunInv(INIT, acts, s);
  }

  // ---------------------------------------------------------------- calls look atomic

  lemma {:induction false} ReplayKeys(history: seq<Call>)
    ensures Replay(history).stats.Keys == Replay(history).updates.Keys
  {
    if history != [] {
      ReplayKeys(history[..|history| - 1]);
    }
  }

  /** Whenever no thread holds the first lock for writing, the table is what the calls completed so far make when each
      happens at once, in the order in which they released the lock; in particular both maps have the same clients. */
  lemma Linearizable(s: State)
    requires Reachable(s) && !s.statsLock.held
    ensures s.table == Replay(s.history)
    ensures s.table.stats.Keys == s.table.updates.Keys
  {
    ReachableInv(s);
    ReplayKeys(s.history);
  }

  predicate ReadsStats(th: Thread) {
    th.Reader? && th.rpc != RLock
  }

  /** A reader of the statistics sees such a table, and nothing changes it until the reader lets go. */
  lemma ReaderView(s: State, t: nat, a: Action)
    requires Reachable(s) && t < |s.threads| && ReadsStats(s.threads[t])
    requires Enabled(s, a)
    ensures s.table == Replay(s.history) && s.table.stats.Keys == s.table.updates.Keys
    ensures Step(s, a).table == s.table
  {
    ReachableInv(s);
    assert StatsUses(s.threads)[t] == Reading;
    assert t in s.statsLock.readers;
    Linearizable(s);
    if a.Go? {
      assert StatsUses(s.threads)[a.t] == StatsUse(s.threads[a.t]) != Writing;
      OtherStep(s.threads[a.t], s.table.updates, s.table, a.now, |s.history|);
    }
  }

  /** Whether a thread's next step changes one of the maps. */
  predicate Mutates(th: Thread) {
    (th.Set? || th.Delete?) && th.pc in {WriteStats, WriteUpdates}
  }

  /** At most one thread at a time is about to change either map, although `deleteNode` holds the second lock for
      reading only; and then no reader of the statistics is at work. */
  lemma OneMutator(s: State, t: nat, u: nat)
    requires Reachable(s) && t < |s.threads| && u < |s.threads| && Mutates(s.threads[t])
    ensures Mutates(s.threads[u]) ==> t == u
    ensures !ReadsStats(s.threads[u])
  {
    ReachableInv(s);
    assert StatsUses(s.threads)[t] == Writing;
    assert StatsUses(s.threads)[u] == StatsUse(s.threads[u]);
  }

  lemma SecondInsideFirst(th: Thread)
    ensures UpdatesUse(th) != Out ==> StatsUse(th) == Writing
  {
  }

  /** The second lock never has anyone waiting: whoever wants it holds the first one for writing. */
  lemma SecondLockIdle(s: State, t: nat)
    requires Inv(s) && t < |s.threads| && StatsUse(s.threads[t]) == Writing
    ensures s.updatesLock.gate.Some? ==> s.updatesLock.gate.value == t
    ensures UpdatesUse(s.threads[t]) != Reading ==> s.updatesLock.readers == {}
  {
    assert StatsUses(s.threads)[t] == Writing;
    forall u | 0 <= u < |s.threads| && u != t
      ensures UpdatesUse(s.threads[u]) == Out
    {
      assert StatsUses(s.threads)[u] == StatsUse(s.threads[u]);
      SecondInsideFirst(s.threads[u]);
    }
    assert forall u | 0 <= u < |s.threads| :: UpdatesUses(s.threads)[u] == UpdatesUse(s.threads[u]);
  }

  // ---------------------------------------------------------------- every call finishes

  ghost predicate AllDone(s: State) {
    forall t | 0 <= t < |s.threads| :: s.threads[t].Done?
  }

  lemma WriterRuns(s: State, t: nat, now: Time)
    requires Inv(s) && t < |s.threads| && StatsUse(s.threads[t]) == Writing
    ensures Enabled(s, Go(t, now))
  {
    SecondLockIdle(s, t);
    assert UpdatesUses(s.threads)[t] == UpdatesUse(s.threads[t]);
    assert StatsUses(s.threads)[t] == StatsUse(s.threads[t]);
  }

  lemma PendingRuns(s: State, t: nat, now: Time)
    requires Inv(s) && t < |s.threads| && StatsUse(s.threads[t]) == Pending && s.statsLock.readers == {}
    ensures Enabled(s, Go(t, now))
  {
  }

  lemma ReaderRuns(s: State, t: nat, now: Time)
    requires t < |s.threads| && StatsUse(s.threads[t]) == Reading
    ensures Enabled(s, Go(t, now))
  {
  }

  lemma OutsiderRuns(s: State, t: nat, now: Time)
    requires t < |s.threads| && StatsUse(s.threads[t]) == Out && !s.threads[t].Done? && s.statsLock.gate.None?
    ensures Enabled(s, Go(t, now))
  {
  }

  /** Unless every call has returned, some thread can take its next step. */
  lemma SomeoneGoes(s: State, now: Time) returns (t: nat)
    requires Inv(s) && !AllDone(s)
    ensures Enabled(s, Go(t, now))
  {
    assert forall u | 0 <= u < |s.threads| :: StatsUses(s.threads)[u] == StatsUse(s.threads[u]);
    if s.statsLock.gate.Some? {
      t := s.statsLock.gate.value;
      if s.statsLock.held {
        WriterRuns(s, t, now);
      } else if s.statsLock.readers == {} {
        PendingRuns(s, t, now);
      } else {
        t :| t in s.statsLock.readers;
        ReaderRuns(s, t, now);
      }
    } else {
      t :| t < |s.threads| && !s.threads[t].Done?;
      if StatsUse(s.threads[t]) == Reading {
        ReaderRuns(s, t, now);
      } else {
        OutsiderRuns(s, t, now);
      }
    }
  }

  function StepsLeft(th: Thread): nat {
    match th
    case Set(_, _, _, pc) => PcLeft(pc)
    case Delete(_, pc, _) => DeleteLeft(pc)
    case Reader(pc) => if pc == RLock then 3 else if pc == Read then 2 else 1
    case Reap(_, _, _) => 8
    case Done => 0
  }

  function PcLeft(pc: Pc): nat {
    match pc
    case SLock => 8 case SWait => 7 case WriteStats => 6 case ULock => 5
    case UWait => 4 case WriteUpdates => 3 case UUnlock => 2 case SUnlock => 1
  }

  function DeleteLeft(pc: Pc): nat {
    match pc
    case SLock => 7 case SWait => 6 case ULock => 5 case UWait => 5
    case WriteStats => 4 case WriteUpdates => 3 case UUnlock => 2 case SUnlock => 1
  }

  function TotalLeft(threads: seq<Thread>): nat {
    if threads == [] then 0 else TotalLeft(threads[..|threads| - 1]) + StepsLeft(threads[|threads| - 1])
  }

  lemma {:induction false} TotalUpdate(threads: seq<Thread>, t: nat, th: Thread)
    requires t < |threads|
    ensures TotalLeft(threads[t := th]) == TotalLeft(threads) - StepsLeft(threads[t]) + StepsLeft(th)
  {
    var last := |threads| - 1;
    if t == last {
      assert threads[t := th][..last] == threads[..last];
    } else {
      assert threads[t := th][..last] == threads[..last][t := th];
      TotalUpdate(threads[..last], t, th);
    }
  }

  lemma StepShrinks(s: State, t: nat, now: Time)
    requires Enabled(s, Go(t, now))
    ensures TotalLeft(Step(s, Go(t, now)).threads) < TotalLeft(s.threads)
  {
    TotalUpdate(s.threads, t, Next(s.threads[t], s.table.updates, now, |s.history|));
  }

  ghost predicate NoneStarts(acts: seq<Action>) {
    forall a | a in acts :: a.Go?
  }

  ghost predicate Stuck(s: State) {
    forall t, now :: !Enabled(s, Go(t, now))
  }

  lemma {:induction false} CallsFinish(s: State, acts: seq<Action>, s': State)
    requires Inv(s) && Run(s, acts, s') && NoneStarts(acts)
    ensures |acts| + TotalLeft(s'.threads) <= TotalLeft(s.threads)
    ensures Stuck(s') ==> AllDone(s') && s'.table == Replay(s'.history)
    decreases |acts|
  {
    if acts == [] {
      if !AllDone(s) {
        var t := SomeoneGoes(s, 0);
      } else if s.statsLock.held {
        var t := s.statsLock.gate.value;
        assert StatsUses(s.threads)[t] == StatsUse(s.threads[t]);
      }
    } else {
      assert acts[0] in acts && forall a | a in acts[1..] :: a in acts;
      StepInv(s, acts[0]);
      StepShrinks(s, acts[0].t, acts[0].now);
      CallsFinish(Step(s, acts[0]), acts[1..], s');
    }
  }

  /** No reachable state is deadlocked. From any reachable state every schedule ends within a bound known then, unless
      new calls start, and where it ends every call has returned. */
  lemma NoDeadlock(s: State, acts: seq<Action>, s': State)
    requires Reachable(s) && Run(s, acts, s') && NoneStarts(acts)
    ensures |acts| <= TotalLeft(s.threads)
    ensures Stuck(s') <==> AllDone(s')
    ensures Stuck(s') ==> s'.table == Replay(s'.history)
  {
    ReachableInv(s);
    CallsFinish(s, acts, s');
  }

  // ---------------------------------------------------------------- the sweep reads without locks

  /** A thread is in `setStats` for `id`, between its two writes. */
  predicate HalfSet(th: Thread, id: string) {
    th.Set? && th.id == id && th.pc in {ULock, UWait, WriteUpdates}
  }

  /** Exactly when the sweep meets a client whose time is missing: the client is new, and its first `setStats` is
      between its two writes. */
  lemma MissingTime(s: State, id: string)
    requires Reachable(s)
    ensures id in s.table.stats && id !in s.table.updates <==>
            && id !in Replay(s.history).stats
            && exists t :: 0 <= t < |s.threads| && HalfSet(s.threads[t], id)
  {
    ReachableInv(s);
    ReplayKeys(s.history);
    assert forall t | 0 <= t < |s.threads| :: StatsUses(s.threads)[t] == StatsUse(s.threads[t]);
    if id in s.table.stats && id !in s.table.updates {
      assert HalfSet(s.threads[s.statsLock.gate.value], id);
    }
  }

  /** The last call on a client, or -1. */
  function LastCall(history: seq<Call>, id: string): (k: int)
    ensures -1 <= k < |history|
    ensures k >= 0 ==> history[k].id == id
    ensures forall j | k < j < |history| :: history[j].id != id
  {
    if history == [] then -1
    else if history[|history| - 1].id == id then |history| - 1
    else LastCall(history[..|history| - 1], id)
  }

  lemma {:induction false} ReplayLast(history: seq<Call>, id: string)
    ensures var k := LastCall(history, id);
            && (id in Replay(history).updates <==> k >= 0 && history[k].Called?)
            && (id in Replay(history).updates ==> Replay(history).updates[id] == history[k].at)
  {
    if history != [] {
      ReplayLast(history[..|history| - 1], id);
    }
  }

  /** A call on a client has completed since the first `seen` calls. */
  ghost predicate Touched(history: seq<Call>, seen: nat, id: string) {
    exists k :: seen <= k < |history| && history[k].id == id
  }

  /** A thread has done its work on a client and still holds the first lock. */
  predicate Ends(th: Thread, id: string) {
    (th.Set? || th.Delete?) && th.id == id && th.pc in {UUnlock, SUnlock}
  }

  ghost predicate OtherEnds(statsLock: Lock, threads: seq<Thread>, t: nat, id: string) {
    && statsLock.held && statsLock.gate.Some? && statsLock.gate.value != t
    && statsLock.gate.value < |threads| && Ends(threads[statsLock.gate.value], id)
  }

  /** Why a judgement came about: the client's time was too old after the calls completed then, or a call on the client
      has completed since, or one was all but complete then and still is. */
  ghost predicate JudgementOk(statsLock: Lock, threads: seq<Thread>, history: seq<Call>, t: nat, id: string,
                              why: Judgement) {
    && why.seen <= |history|
    && (|| LastUpdate(Replay(history[..why.seen]).updates, id) + why.interval < why.began
        || Touched(history, why.seen, id)
        || (|history| == why.seen && OtherEnds(statsLock, threads, t, id)))
  }

  ghost predicate Judged(s: State) {
    forall t: nat | t < |s.threads| && s.threads[t].Delete? && s.threads[t].why.Some? ::
      JudgementOk(s.statsLock, s.threads, s.history, t, s.threads[t].id, s.threads[t].why.value)
  }

  /** What the sweep reads differs from the completed calls only while another call on the client is about to end. */
  lemma FirstJudged(s: State, t: nat, now: Time)
    requires Inv(s) && Enabled(s, Go(t, now)) && s.threads[t].Reap?
    requires Next(s.threads[t], s.table.updates, now, |s.history|).Delete?
    ensures var s' := Step(s, Go(t, now));
            && s'.threads[t].Delete? && s'.threads[t].why.Some?
            && JudgementOk(s'.statsLock, s'.threads, s'.history, t, s'.threads[t].id, s'.threads[t].why.value)
  {
    assert StatsUses(s.threads)[t] == StatsUse(s.threads[t]) == Out;
    assert s.history + [] == s.history && s.history[..|s.history|] == s.history;
  }

  lemma LaterJudged(before: seq<Call>, effect: seq<Call>, seen: nat, id: string)
    requires seen <= |before|
    ensures (before + effect)[..seen] == before[..seen]
    ensures Touched(before, seen, id) ==> Touched(before + effect, seen, id)
    ensures |effect| == 1 && effect[0].id == id ==> Touched(before + effect, seen, id)
  {
    if Touched(before, seen, id) {
      var k :| seen <= k < |before| && before[k].id == id;
      assert (before + effect)[k] == before[k];
    }
    if |effect| == 1 && effect[0].id == id {
      assert (before + effect)[|before|] == effect[0];
    }
  }

  /** Another thread's end work ends in a call, and nothing else completes before. */
  lemma EndGoesOn(s: State, u: nat, now: Time, t: nat, id: string)
    requires Inv(s) && Enabled(s, Go(u, now)) && OtherEnds(s.statsLock, s.threads, t, id)
    ensures var s' := Step(s, Go(u, now));
            || (s'.history == s.history && OtherEnds(s'.statsLock, s'.threads, t, id))
            || (exists call: Call :: s'.history == s.history + [call] && call.id == id)
  {
    var h := s.statsLock.gate.value;
    assert StatsUses(s.threads)[h] == StatsUse(s.threads[h]) == Writing;
    assert StatsUses(s.threads)[u] == StatsUse(s.threads[u]);
    if u == h {
      if s.threads[h].pc == SUnlock {
        var call := Effect(s.threads[h])[0];
        assert s.history + Effect(s.threads[h]) == s.history + [call];
      } else {
        assert s.history + [] == s.history;
      }
    } else {
      OtherStep(s.threads[u], s.table.updates, s.table, now, |s.history|);
      assert s.history + [] == s.history;
    }
  }

  lemma KeepsJudgement(s: State, u: nat, now: Time, t: nat, id: string, why: Judgement)
    requires Inv(s) && Enabled(s, Go(u, now))
    requires JudgementOk(s.statsLock, s.threads, s.history, t, id, why)
    ensures var s' := Step(s, Go(u, now)); JudgementOk(s'.statsLock, s'.threads, s'.history, t, id, why)
  {
    var s' := Step(s, Go(u, now));
    LaterJudged(s.history, Effect(s.threads[u]), why.seen, id);
    if |s.history| == why.seen && OtherEnds(s.statsLock, s.threads, t, id) {
      EndGoesOn(s, u, now, t, id);
      if s'.history != s.history {
        var call: Call :| s'.history == s.history + [call] && call.id == id;
        assert s'.history[|s.history|] == call;
      }
    }
  }

  lemma StepJudged(s: State, a: Action)
    requires Inv(s) && Judged(s) && Enabled(s, a)
    ensures Judged(Step(s, a))
  {
    var s' := Step(s, a);
    forall t: nat | t < |s'.threads| && s'.threads[t].Delete? && s'.threads[t].why.Some?
      ensures JudgementOk(s'.statsLock, s'.threads, s'.history, t, s'.threads[t].id, s'.threads[t].why.value)
    {
      if a.Go? && a.t == t && s.threads[t].Reap? {
        FirstJudged(s, t, a.now);
      } else {
        var why := s'.threads[t].why.value;
        assert JudgementOk(s.statsLock, s.threads, s.history, t, s.threads[t].id, why);
        if a.Go? {
          KeepsJudgement(s, a.t, a.now, t, s.threads[t].id, why);
        }
      }
    }
  }

  lemma {:induction false} RunJudged(s: State, acts: seq<Action>, s': State)
    requires Inv(s) && Judged(s) && Run(s, acts, s')
    ensures Judged(s')
    decreases |acts|
  {
    if acts != [] {
      StepInv(s, acts[0]);
      StepJudged(s, acts[0]);
      RunJudged(Step(s, acts[0]), acts[1..], s');
    }
  }

  lemma ReachableJudged(s: State)
    requires Reachable(s)
    ensures Inv(s) && Judged(s)
  {
    ReachableInv(s);
    var acts :| Run(INIT, acts, s);
    RunJudged(INIT, acts, s);
  }

  /** The client was heard from recently enough for the sweep that judged it. */
  predicate Recent(table: Table, id: string, why: Judgement) {
    id in table.updates && table.updates[id] + why.interval >= why.began
  }

  /** A recent `setStats` of the client has completed since the judgement, and no call on the client after it. */
  ghost predicate Revived(history: seq<Call>, id: string, why: Judgement) {
    exists k :: && why.seen <= k < |history|
                && history[k].Called? && history[k].id == id && history[k].at + why.interval >= why.began
                && forall j | k < j < |history| :: history[j].id != id
  }

  lemma RevivedIsRecent(history: seq<Call>, id: string, why: Judgement)
    requires Revived(history, id, why)
    ensures Recent(Replay(history), id, why)
  {
    ReplayLast(history, id);
    var k :| && why.seen <= k < |history|
             && history[k].Called? && history[k].id == id && history[k].at + why.interval >= why.began
             && forall j | k < j < |history| :: history[j].id != id;
    assert LastCall(history, id) == k;
  }

  lemma RecentIsRevived(history: seq<Call>, id: string, why: Judgement)
    requires Recent(Replay(history), id, why) && why.seen <= |history|
    requires LastUpdate(Replay(history[..why.seen]).updates, id) + why.interval < why.began
             || Touched(history, why.seen, id)
    ensures Revived(history, id, why)
  {
    ReplayLast(history, id);
    ReplayLast(history[..why.seen], id);
    LastCallBefore(history, why.seen, id);
  }

  lemma LastCallBefore(history: seq<Call>, seen: nat, id: string)
    requires seen <= |history|
    ensures LastCall(history, id) < seen ==> LastCall(history[..seen], id) == LastCall(history, id)
  {
    var k := LastCall(history, id);
    if 0 <= k < seen {
      assert history[..seen][k] == history[k];
    }
  }

  /** Exactly when the sweep culls a client it should not. Once the deletion holds the first lock, the client's time is
      recent enough after all if and only if the client's last call is a recent enough `setStats` that has completed
      since the sweep looked. Until the deletion changes a map, that time is in the table. */
  lemma CulledWrongly(s: State, t: nat)
    requires Reachable(s) && t < |s.threads|
    requires s.threads[t].Delete? && s.threads[t].why.Some? && StatsUse(s.threads[t]) == Writing
    ensures var th := s.threads[t];
            && (Recent(Replay(s.history), th.id, th.why.value) <==> Revived(s.history, th.id, th.why.value))
            && (th.pc in {ULock, WriteStats} ==> s.table == Replay(s.history))
  {
    ReachableJudged(s);
    var id, why := s.threads[t].id, s.threads[t].why.value;
    assert StatsUses(s.threads)[t] == Writing;
    assert s.statsLock.gate == Some(t);
    assert JudgementOk(s.statsLock, s.threads, s.history, t, id, why);
    if Revived(s.history, id, why) {
      RevivedIsRecent(s.history, id, why);
    }
    if Recent(Replay(s.history), id, why) {
      RecentIsRevived(s.history, id, why);
    }
  }

  lemma {:induction false} RunSnoc(s: State, acts: seq<Action>, mid: State, a: Action)
    requires Run(s, acts, mid) && Enabled(mid, a)
    ensures Run(s, acts + [a], Step(mid, a))
    decreases |acts|
  {
    if acts == [] {
      assert acts + [a] == [a];
      assert Run(Step(s, a), [], Step(mid, a));
    } else {
      RunSnoc(Step(s, acts[0]), acts[1..], mid, a);
      assert (acts + [a])[1..] == acts[1..] + [a] && (acts + [a])[0] == acts[0];
    }
  }

  /** `s'` can follow `s`. */
  ghost predicate Leads(s: State, s': State) {
    exists acts :: Run(s, acts, s')
  }

  lemma LeadsOn(s: State, mid: State, a: Action)
    requires Leads(s, mid) && Enabled(mid, a)
    ensures Leads(s, Step(mid, a))
  {
    var acts :| Run(s, acts, mid);
    RunSnoc(s, acts, mid, a);
  }

  /** A new client's `setStats` is between its two writes when the sweep comes to it. */
  function HalfRegistered(id: string, stats: FuzzerStats, interval: Time, now: Time): State {
    State(Table(map[id := stats], map[]), Lock(Some(0), true, {}), FREE,
          [Set(id, stats, now, ULock), Reap(id, interval, now)], [])
  }

  /** A `setStats` on its own, before it has written anything. */
  function Entering(id: string, stats: FuzzerStats, now: Time, lock: Lock, pc: Pc): State {
    State(Table(map[], map[]), lock, FREE, [Set(id, stats, now, pc)], [])
  }

  lemma StartsAlone(id: string, stats: FuzzerStats, now: Time)
    ensures Leads(INIT, Entering(id, stats, now, FREE, SLock))
  {
    var a := Start(Set(id, stats, now, SLock));
    assert Run(INIT, [], INIT);
    LeadsOn(INIT, INIT, a);
    assert Step(INIT, a) == Entering(id, stats, now, FREE, SLock);
  }

  lemma EntersAlone(id: string, stats: FuzzerStats, now: Time)
    ensures Leads(INIT, Entering(id, stats, now, Lock(Some(0), true, {}), WriteStats))
  {
    StartsAlone(id, stats, now);
    var s1 := Entering(id, stats, now, FREE, SLock);
    var s2 := Entering(id, stats, now, Lock(Some(0), false, {}), SWait);
    LeadsOn(INIT, s1, Go(0, now));
    assert Step(s1, Go(0, now)) == s2;
    LeadsOn(INIT, s2, Go(0, now));
    assert Step(s2, Go(0, now)) == Entering(id, stats, now, Lock(Some(0), true, {}), WriteStats);
  }

  lemma HalfRegisteredReachable(id: string, stats: FuzzerStats, interval: Time, now: Time)
    ensures Reachable(HalfRegistered(id, stats, interval, now))
  {
    EntersAlone(id, stats, now);
    var s3 := Entering(id, stats, now, Lock(Some(0), true, {}), WriteStats);
    var s4 := State(Table(map[id := stats], map[]), Lock(Some(0), true, {}), FREE, [Set(id, stats, now, ULock)], []);
    LeadsOn(INIT, s3, Go(0, now));
    assert Step(s3, Go(0, now)) == s4;
    LeadsOn(INIT, s4, Start(Reap(id, interval, now)));
    assert Step(s4, Start(Reap(id, interval, now))) == HalfRegistered(id, stats, interval, now);
  }

  /** The call a thread inside `setStats` or `deleteNode` will have made, if its clock shows `now`. */
  function CallOf(th: Thread, now: Time): Call
    requires th.Set? || th.Delete?
  {
    if th.Delete? then Deleted(th.id)
    else Called(th.id, th.stats, if th.pc in {UUnlock, SUnlock} then th.at else now)
  }

  lemma HolderGoes(s: State, t: nat, now: Time) returns (s': State)
    requires Inv(s) && t < |s.threads| && StatsUse(s.threads[t]) == Writing
    ensures Inv(s') && Leads(s, s')
    ensures s'.threads == s.threads[t := Next(s.threads[t], s.table.updates, now, |s.history|)]
    ensures s'.history == if s.threads[t].pc == SUnlock then s.history + Effect(s.threads[t]) else s.history
  {
    WriterRuns(s, t, now);
    StepInv(s, Go(t, now));
    assert Run(s, [], s);
    LeadsOn(s, s, Go(t, now));
    s' := Step(s, Go(t, now));
    assert s.history + [] == s.history;
  }

  /** A thread that holds the first lock for writing can always run to its end undisturbed. */
  lemma {:induction false} HolderFinishes(s: State, t: nat, now: Time) returns (s': State)
    requires Inv(s) && t < |s.threads| && StatsUse(s.threads[t]) == Writing
    ensures Inv(s') && Leads(s, s')
    ensures s'.threads == s.threads[t := Done] && s'.history == s.history + [CallOf(s.threads[t], now)]
    decreases StepsLeft(s.threads[t])
  {
    var mid := HolderGoes(s, t, now);
    if s.threads[t].pc == SUnlock {
      s' := mid;
    } else {
      s' := HolderFinishes(mid, t, now);
      LeadsTransitive(s, mid, s');
      OneThread(s.threads, mid.threads, t);
    }
  }

  lemma OneThread(threads: seq<Thread>, later: seq<Thread>, t: nat)
    requires t < |threads| == |later| && later == threads[t := later[t]]
    ensures later[t := Done] == threads[t := Done]
  {
  }

  lemma LeadsTransitive(a: State, b: State, c: State)
    requires Leads(a, b) && Leads(b, c)
    ensures Leads(a, c)
  {
    var p :| Run(a, p, b);
    var q :| Run(b, q, c);
    RunConcat(a, p, b, q, c);
  }

  lemma {:induction false} RunConcat(a: State, p: seq<Action>, b: State, q: seq<Action>, c: State)
    requires Run(a, p, b) && Run(b, q, c)
    ensures Run(a, p + q, c)
    decreases |p|
  {
    if p == [] {
      assert p + q == q;
    } else {
      RunConcat(Step(a, p[0]), p[1..], b, q, c);
      assert (p + q)[1..] == p[1..] + q && (p + q)[0] == p[0];
    }
  }

  /** All other threads are outside the locks. */
  ghost predicate Alone(s: State, t: nat) {
    t < |s.threads| && forall u | 0 <= u < |s.threads| && u != t :: StatsUse(s.threads[u]) == Out
  }

  lemma NoneReads(s: State, t: nat)
    requires Inv(s) && Alone(s, t) && StatsUse(s.threads[t]) != Reading
    ensures s.statsLock.readers == {}
    ensures StatsUse(s.threads[t]) == Out ==> s.statsLock.gate.None?
  {
    assert forall u | 0 <= u < |s.threads| :: StatsUses(s.threads)[u] == StatsUse(s.threads[u]);
    assert forall u | 0 <= u < |s.threads| && u != t :: StatsUses(s.threads)[u] == Out;
  }

  predicate InCall(th: Thread, pc: Pc) {
    (th.Set? || th.Delete?) && th.pc == pc
  }

  /** One of the two steps into the first lock. */
  lemma LockStep(s: State, t: nat, now: Time) returns (s': State)
    requires Inv(s) && Alone(s, t) && (InCall(s.threads[t], SLock) || InCall(s.threads[t], SWait))
    ensures Inv(s') && Leads(s, s') && s'.history == s.history
    ensures s'.threads == s.threads[t := Next(s.threads[t], s.table.updates, now, |s.history|)]
  {
    NoneReads(s, t);
    StepInv(s, Go(t, now));
    assert Run(s, [], s);
    LeadsOn(s, s, Go(t, now));
    assert s.history + [] == s.history;
    s' := Step(s, Go(t, now));
  }

  /** With no one else about, a call can get the first lock. */
  lemma CallEnters(s: State, t: nat, now: Time) returns (s': State)
    requires Inv(s) && Alone(s, t) && InCall(s.threads[t], SLock)
    ensures Inv(s') && Leads(s, s') && s'.history == s.history
    ensures |s'.threads| == |s.threads| && s'.threads == s.threads[t := s'.threads[t]]
    ensures StatsUse(s'.threads[t]) == Writing && CallOf(s'.threads[t], now) == CallOf(s.threads[t], now)
  {
    var mid := LockStep(s, t, now);
    s' := LockStep(mid, t, now);
    LeadsTransitive(s, mid, s');
  }

  /** With no one else about, a call can run from start to end. */
  lemma CallRuns(s: State, t: nat, now: Time) returns (s': State)
    requires Inv(s) && Alone(s, t) && InCall(s.threads[t], SLock)
    ensures Inv(s') && Leads(s, s')
    ensures s'.threads == s.threads[t := Done] && s'.history == s.history + [CallOf(s.threads[t], now)]
  {
    var mid := CallEnters(s, t, now);
    s' := HolderFinishes(mid, t, now);
    LeadsTransitive(s, mid, s');
    assert s.threads[t := mid.threads[t]][t := Done] == s.threads[t := Done];
  }

  lemma DoneTable(s: State)
    requires Inv(s) && AllDone(s)
    ensures s.table == Replay(s.history)
  {
    CallsFinish(s, [], s);
  }

  lemma ReplayDeleted(history: seq<Call>, id: string)
    ensures id !in Replay(history + [Deleted(id)]).stats && id !in Replay(history + [Deleted(id)]).updates
  {
    assert (history + [Deleted(id)])[..|history|] == history;
  }

  /** The deletion that a sweep starts after its look at a client. */
  function SweepDeletion(id: string, interval: Time, began: Time, seen: nat): Thread {
    Delete(id, SLock, Some(Judgement(interval, began, seen)))
  }

  /** The sweep takes the missing time for the zero time. */
  lemma SweepJudges(id: string, stats: FuzzerStats, interval: Time, now: Time) returns (s: State)
    requires interval < now
    ensures Inv(s) && Leads(HalfRegistered(id, stats, interval, now), s)
    ensures s.threads == [Set(id, stats, now, ULock), SweepDeletion(id, interval, now, 0)] && s.history == []
  {
    var s0 := HalfRegistered(id, stats, interval, now);
    HalfRegisteredReachable(id, stats, interval, now);
    ReachableInv(s0);
    assert Run(s0, [], s0);
    LeadsOn(s0, s0, Go(1, now));
    StepInv(s0, Go(1, now));
    s := Step(s0, Go(1, now));
  }

  lemma FreshRun(id: string, stats: FuzzerStats, interval: Time, now: Time) returns (s: State)
    requires interval < now
    ensures Inv(s) && Leads(HalfRegistered(id, stats, interval, now), s) && s.threads == [Done, Done]
    ensures s.history == [Called(id, stats, now)] + [Deleted(id)]
  {
    var s0 := HalfRegistered(id, stats, interval, now);
    var s1 := SweepJudges(id, stats, interval, now);
    var s2 := HolderFinishes(s1, 0, now);
    assert s2.threads == [Done, SweepDeletion(id, interval, now, 0)] && s2.history == [Called(id, stats, now)];
    s := CallRuns(s2, 1, now);
    LeadsTransitive(s0, s1, s2);
    LeadsTransitive(s0, s2, s);
  }

  /** So a client can be culled by a sweep that began at the very time of its first and latest update. */
  lemma FreshClientReaped(id: string, stats: FuzzerStats, interval: Time, now: Time) returns (s: State)
    requires interval < now
    ensures Reachable(HalfRegistered(id, stats, interval, now)) && Leads(HalfRegistered(id, stats, interval, now), s)
    ensures s.history == [Called(id, stats, now), Deleted(id)] && AllDone(s)
    ensures id !in s.table.stats && id !in s.table.updates
  {
    HalfRegisteredReachable(id, stats, interval, now);
    s := FreshRun(id, stats, interval, now);
    DeletedLast(s, [Called(id, stats, now)], id);
  }

  /** A client registered at `t0`, and a sweep that has come to it. */
  lemma SweepMeetsOld(id: string, a: FuzzerStats, t0: Time, interval: Time, began: Time) returns (s: State)
    ensures Reachable(s) && Inv(s)
    ensures s.threads == [Done, Reap(id, interval, began)] && s.history == [Called(id, a, t0)]
    ensures s.table == Replay(s.history)
  {
    StartsAlone(id, a, t0);
    var s1 := Entering(id, a, t0, FREE, SLock);
    ReachableInv(s1);
    var s2 := CallRuns(s1, 0, t0);
    LeadsTransitive(INIT, s1, s2);
    assert s2.threads == [Done] && s2.history == [Called(id, a, t0)];
    DoneTable(s2);
    assert s2.history[..0] == [];
    assert id in s2.table.stats;
    LeadsOn(INIT, s2, Start(Reap(id, interval, began)));
    StartInv(s2, Reap(id, interval, began));
    s := Step(s2, Start(Reap(id, interval, began)));
  }

  lemma OldTime(id: string, a: FuzzerStats, t0: Time)
    ensures LastUpdate(Replay([Called(id, a, t0)]).updates, id) == t0
  {
    assert [Called(id, a, t0)][..0] == [];
  }

  /** The sweep finds the old time too old, and the client reports again before the deletion starts. */
  lemma ReportsAgain(s: State, id: string, a: FuzzerStats, t0: Time, interval: Time, began: Time, b: FuzzerStats,
                     t1: Time) returns (s': State)
    requires Inv(s) && s.threads == [Done, Reap(id, interval, began)] && s.history == [Called(id, a, t0)]
    requires s.table == Replay(s.history) && t0 + interval < began
    ensures Inv(s') && Leads(s, s')
    ensures s'.threads == [Done, SweepDeletion(id, interval, began, 1), Set(id, b, t1, SLock)]
    ensures s'.history == s.history
  {
    OldTime(id, a, t0);
    assert Run(s, [], s);
    LeadsOn(s, s, Go(1, began));
    StepInv(s, Go(1, began));
    var mid := Step(s, Go(1, began));
    assert s.history + [] == s.history;
    assert mid.threads == [Done, SweepDeletion(id, interval, began, 1)];
    LeadsOn(s, mid, Start(Set(id, b, t1, SLock)));
    StartInv(mid, Set(id, b, t1, SLock));
    s' := Step(mid, Start(Set(id, b, t1, SLock)));
  }

  /** Both calls run one after the other. */
  lemma ReportThenDelete(s2: State, id: string, interval: Time, began: Time, b: FuzzerStats, t1: Time)
    returns (s: State)
    requires Inv(s2) && s2.threads == [Done, SweepDeletion(id, interval, began, 1), Set(id, b, t1, SLock)]
    ensures Inv(s) && Leads(s2, s) && s.threads == [Done, Done, Done]
    ensures s.history == s2.history + [Called(id, b, t1)] + [Deleted(id)]
  {
    var s3 := CallRuns(s2, 2, t1);
    assert s3.threads == [Done, SweepDeletion(id, interval, began, 1), Done];
    s := CallRuns(s3, 1, t1);
    LeadsTransitive(s2, s3, s);
    assert s.threads == [Done, Done, Done];
  }

  lemma DeletedLast(s: State, history: seq<Call>, id: string)
    requires Inv(s) && AllDone(s) && s.history == history + [Deleted(id)]
    ensures id !in s.table.stats && id !in s.table.updates
  {
    ReplayDeleted(history, id);
    DoneTable(s);
  }

  lemma RevivedRun(id: string, a: FuzzerStats, t0: Time, b: FuzzerStats, t1: Time, interval: Time, began: Time)
    returns (s: State)
    requires t0 + interval < began
    ensures Inv(s) && Reachable(s) && s.threads == [Done, Done, Done]
    ensures s.history == [Called(id, a, t0)] + [Called(id, b, t1)] + [Deleted(id)]
  {
    var s1 := SweepMeetsOld(id, a, t0, interval, began);
    var s2 := ReportsAgain(s1, id, a, t0, interval, began, b, t1);
    s := ReportThenDelete(s2, id, interval, began, b, t1);
    LeadsTransitive(INIT, s1, s2);
    LeadsTransitive(INIT, s2, s);
  }

  /** And a client that reports again after the sweep has looked at its old time is culled all the same. */
  lemma RevivedClientReaped(id: string, a: FuzzerStats, t0: Time, b: FuzzerStats, t1: Time, interval: Time, began: Time)
    returns (s: State)
    requires t0 + interval < began <= t1
    ensures Reachable(s) && AllDone(s)
    ensures s.history == [Called(id, a, t0), Called(id, b, t1), Deleted(id)]
    ensures id !in s.table.stats && id !in s.table.updates
  {
    s := RevivedRun(id, a, t0, b, t1, interval, began);
    DeletedLast(s, [Called(id, a, t0)] + [Called(id, b, t1)], id);
  }
}
