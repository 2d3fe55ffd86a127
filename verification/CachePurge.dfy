/** What one pass over the cached players removes, and when every entry is gone. */
module CachePurge {
  import opened Wrappers
  import opened GatewaySteps

  /** The entries that are not older than `keep` at `point`. */
  function Unexpired(cache: map<int, Cached>, point: int, keep: int): map<int, Cached> {
    map pid | pid in cache && point - cache[pid].at <= keep :: cache[pid]
  }

  /** `after` has entries of `before`, no matter which, as many as the limit allows. */
  predicate Trims(before: map<int, Cached>, maxSize: int, after: map<int, Cached>) {
    after.Keys <= before.Keys && (forall pid | pid in after :: after[pid] == before[pid]) &&
    |after| == if 0 <= maxSize < |before| then maxSize else |before|
  }

  /**
   `after` is what a pass may leave: expired entries go first and then, if the rest exceeds a size
   limit, any of them down to the limit.  The source compares sizes as unsigned numbers, so a
   negative limit limits nothing.
   */
  predicate Purges(before: map<int, Cached>, point: int, keep: int, maxSize: int, after: map<int, Cached>) {
    Trims(Unexpired(before, point, keep), maxSize, after)
  }

  /**
   The survivors are entries that are not older than `keep`: all of them, or as many as a limit that
   they exceed.
   */
  lemma PurgeMeets(before: map<int, Cached>, point: int, keep: int, maxSize: int, after: map<int, Cached>)
    requires Purges(before, point, keep, maxSize, after)
    ensures forall pid | pid in after :: pid in before && after[pid] == before[pid] && point - after[pid].at <= keep
    ensures var young := set pid | pid in before && point - before[pid].at <= keep;
            after.Keys <= young && |after| == if 0 <= maxSize < |young| then maxSize else |young|
    ensures maxSize >= 0 ==> |after| <= maxSize
    ensures maxSize < 0 || |Unexpired(before, point, keep)| <= maxSize <==> after == Unexpired(before, point, keep)
  {
    var rest := Unexpired(before, point, keep);
    var young := set pid | pid in before && point - before[pid].at <= keep;
    assert rest.Keys == young;
    assert |rest| == |rest.Keys|;
    if |after| == |rest| {
      SameSizeSubset(after.Keys, rest.Keys);
      assert forall pid | pid in rest :: pid in after.Keys && after[pid] == rest[pid];
      assert after == rest;
    }
  }

  lemma SameSizeSubset<T>(a: set<T>, b: set<T>)
    requires a <= b && |a| == |b|
    ensures a == b
  {
    assert b == a + (b - a);
  }

  // ---------------------------------------------------------------------------------------------
  // Passes at fixed gaps

  /** When the passes of a run are scheduled, and what they enforce. */
  datatype Schedule = Schedule(gap: int, keep: nat, maxSize: int)

  /**
   `last` is the scheduled time of the last pass.  What is put in carries a time that is not before
   it, and the next pass is scheduled one gap later, however late it comes.
   */
  predicate OnTime(s: State, c: Schedule, last: int, x: Action) {
    match x
    case CleanUp(_, now) => now >= last
    case Collect(dropped) => Purges(s.cache, last + c.gap, c.keep, c.maxSize, s.cache - dropped)
    case _ => true
  }

  function PointAfter(c: Schedule, last: int, x: Action): int {
    if x.Collect? then last + c.gap else last
  }

  predicate IsTimedRun(g: Guards, s: State, c: Schedule, last: int, run: seq<Action>)
    requires IsRun(g, s, run)
    decreases |run|
  {
    run == [] ||
    (OnTime(s, c, last, run[0]) && IsTimedRun(g, Next(g, s, run[0]), c, PointAfter(c, last, run[0]), run[1..]))
  }

  function LastPoint(c: Schedule, last: int, run: seq<Action>): int
    decreases |run|
  {
    if run == [] then last else LastPoint(c, PointAfter(c, last, run[0]), run[1..])
  }

  predicate NoneOlder(cache: map<int, Cached>, point: int, keep: int) {
    forall pid | pid in cache :: point <= cache[pid].at + keep
  }

  /** Only a clean-up puts anything in, at its own time; a login only takes out. */
  lemma CacheFollows(g: Guards, s: State, x: Action)
    requires Enabled(s, x)
    ensures forall pid | pid in Next(g, s, x).cache ::
              (pid in s.cache && Next(g, s, x).cache[pid] == s.cache[pid]) ||
              (x.CleanUp? && Next(g, s, x).cache[pid].at == x.now)
    ensures x.Collect? ==> Next(g, s, x).cache == s.cache - x.dropped
  {
    hide DoLogin, DoCleanUp;
    match x
    case Login(key, pid, closes) => LoginOnlyTakes(g, s, key, pid, closes);
    case CleanUp(a, now) => CleanUpPuts(s, a, now);
    case Connect(_, _) =>
    case Logout(_) =>
    case Close(_) =>
    case Collect(_) =>
    case Stop =>
  }

  lemma LoginOnlyTakes(g: Guards, s: State, key: Key, pid: int, closes: bool)
    ensures DoLogin(g, s, key, pid, closes).cache == s.cache || DoLogin(g, s, key, pid, closes).cache == s.cache - {pid}
  {
    hide Enter;
    if s.running && pid !in s.playerMap {
      EnterOnlyTakes(g, s, key, pid, None, None, closes);
    } else if s.running {
      var ex := s.playerMap[pid];
      var agent := AgentOf(s, ex);
      var s1 := s.(agents := s.agents[ex := agent.(player := None)], playerMap := s.playerMap - {pid});
      EnterOnlyTakes(g, s1, key, pid, agent.player, Some(ex), closes);
    }
  }

  lemma EnterOnlyTakes(
    g: Guards, s: State, key: Key, pid: int, player: Option<Player>, existed: Option<AgentId>, closes: bool)
    ensures Enter(g, s, key, pid, player, existed, closes).cache == if key in s.agentMap
              then s.cache - {pid} else s.cache
  {
    hide Chosen, SetUpPlayer, Notified;
    forall z, a, q, saved
      ensures SetUpPlayer(g, z, a, q, saved).cache == z.cache
    {
      SetUpLeavesCache(g, z, a, q, saved);
    }
    forall z, a
      ensures Notified(z, a, closes).cache == z.cache
    {
      NotifiedLeavesCache(z, a, closes);
    }
  }

  lemma SetUpLeavesCache(g: Guards, s: State, a: AgentId, q: Player, saved: bool)
    ensures SetUpPlayer(g, s, a, q, saved).cache == s.cache
  {
  }

  lemma NotifiedLeavesCache(s: State, a: AgentId, closes: bool)
    ensures Notified(s, a, closes).cache == s.cache
  {
  }

  lemma CleanUpPuts(s: State, a: AgentId, now: int)
    ensures forall pid | pid in DoCleanUp(s, a, now).cache ::
              (pid in s.cache && DoCleanUp(s, a, now).cache[pid] == s.cache[pid]) ||
              DoCleanUp(s, a, now).cache[pid].at == now
  {
  }

  lemma StepKeepsAges(g: Guards, s: State, c: Schedule, last: int, x: Action)
    requires Enabled(s, x) && OnTime(s, c, last, x) && NoneOlder(s.cache, last, c.keep)
    ensures NoneOlder(Next(g, s, x).cache, PointAfter(c, last, x), c.keep)
  {
    hide Enabled, Next, Purges;
    CacheFollows(g, s, x);
    if x.Collect? {
      PurgeMeets(s.cache, last + c.gap, c.keep, c.maxSize, s.cache - x.dropped);
    }
  }

  /**
   In every run whose passes are scheduled at fixed gaps, an entry put in at time t is gone from the
   first pass that is scheduled after t + keep; the pass before it was scheduled one gap earlier.
   */
  lemma {:induction false} EntriesAreGoneInTime(g: Guards, s: State, c: Schedule, last: int, run: seq<Action>)
    requires IsRun(g, s, run) && IsTimedRun(g, s, c, last, run) && NoneOlder(s.cache, last, c.keep)
    ensures NoneOlder(After(g, s, run).cache, LastPoint(c, last, run), c.keep)
    decreases |run|
  {
    hide Enabled, Next, OnTime, PointAfter, NoneOlder;
    if run != [] {
      StepKeepsAges(g, s, c, last, run[0]);
      EntriesAreGoneInTime(g, Next(g, s, run[0]), c, PointAfter(c, last, run[0]), run[1..]);
    }
  }

  lemma PurgeOf(before: map<int, Cached>, point: int, keep: int, maxSize: int, after: map<int, Cached>)
    requires Trims(Unexpired(before, point, keep), maxSize, after)
    ensures Purges(before, point, keep, maxSize, after)
  {
  }

  /** A pass only drops entries. */
  lemma PurgeDrops(before: map<int, Cached>, point: int, keep: int, maxSize: int, after: map<int, Cached>)
    requires Purges(before, point, keep, maxSize, after)
    ensures after.Keys <= before.Keys && after == before - (before.Keys - after.Keys)
  {
    var rest := Unexpired(before, point, keep);
    assert forall pid | pid in after :: pid in rest && after[pid] == rest[pid] == before[pid];
  }
}
