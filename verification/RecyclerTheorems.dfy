/**
 What holds in every state that the pool's threads can reach, stated on the pool itself.
 */
module RecyclerTheorems {
  import opened Wrappers
  import opened Collections
  import opened RecyclerSizing
  import opened RecyclerSteps
  import opened RecyclerFrames
  import opened RecyclerInvariant

  // ---------------------------------------------------------------------------------------------
  // Induction over runs

  function AllQueued(queue: seq<Node>): Places {
    map n | n in Elements(queue) :: InQueue
  }

  lemma StartHolds(cfg: Config, c0: nat)
    requires cfg.Defined() && c0 < SIZE_T
    ensures Inv(cfg, Start(c0), AllQueued(Start(c0).queue))
  {
    var queue := Start(c0).queue;
    var p := AllQueued(queue);
    assert forall n :: n in queue <==> n in Elements(queue);
    DistinctSize(queue);
    assert p.Keys == Elements(queue);
    assert InUseNodes(p) == {};
  }

  lemma StepKeeps(cfg: Config, s: Pool, p: Places, a: Action) returns (p': Places)
    requires cfg.Defined() && Inv(cfg, s, p) && Enabled(s, a)
    ensures Inv(cfg, Next(cfg, s, a), p')
  {
    hide Inv, Enabled, Next;
    p' := p;
    match a
    case CopyLoad(t, src) => CopyLoadKeeps(cfg, s, p, t, src);
    case CopyExchange(t, into, spurious) => CopyExchangeKeeps(cfg, s, p, t, into, spurious);
    case Move(src, into) => MoveKeeps(cfg, s, p, src, into);
    case Drop(t, src) => p' := DropKeeps(cfg, s, p, t, src);
    case FindRecycler(t) => FindRecyclerKeeps(cfg, s, p, t);
    case OnRecycle(t) => OnRecycleKeeps(cfg, s, p, t);
    case SubUsage(t) => p' := SubUsageKeeps(cfg, s, p, t);
    case Push(t) => p' := PushKeeps(cfg, s, p, t);
    case DestroyNode(t) => p' := DestroyNodeKeeps(cfg, s, p, t);
    case FreeBlock(t) => FreeBlockKeeps(cfg, s, p, t);
    case Acquire(t, into) => p' := AcquireKeeps(cfg, s, p, t, into);
    case LoadUsage(t) => LoadUsageKeeps(cfg, s, p, t);
    case CreateNode(t, n) => p' := CreateNodeKeeps(cfg, s, p, t, n);
    case Publish(t) => p' := PublishKeeps(cfg, s, p, t);
    case AddUsage(t) => p' := AddUsageKeeps(cfg, s, p, t);
    case HandOut(t, into) => p' := HandOutKeeps(cfg, s, p, t, into);
    case ShrinkSnapshot => ShrinkSnapshotKeeps(cfg, s, p);
    case ShrinkDelete => p' := ShrinkDeleteKeeps(cfg, s, p);
    case ShrinkDone => ShrinkDoneKeeps(cfg, s, p);
    case CallSnapshot(c) => CallSnapshotKeeps(cfg, s, p, c);
    case CallDelete(c) => p' := CallDeleteKeeps(cfg, s, p, c);
    case DestroyPool(t) => p' := DestroyPoolKeeps(cfg, s, p, t);
  }

  ghost predicate Step(cfg: Config, s: Pool, t: Pool)
    requires cfg.Defined()
  {
    exists a :: Enabled(s, a) && Next(cfg, s, a) == t
  }

  ghost predicate Trace(cfg: Config, states: seq<Pool>)
    requires cfg.Defined()
  {
    |states| > 0 && (exists c0: nat :: c0 < SIZE_T && states[0] == Start(c0)) &&
    forall i | 0 <= i < |states| - 1 :: Step(cfg, states[i], states[i + 1])
  }

  /** A state that some run reaches from an initialized pool. */
  ghost predicate Reachable(cfg: Config, s: Pool)
    requires cfg.Defined()
  {
    exists states: seq<Pool> :: Trace(cfg, states) && states[|states| - 1] == s
  }

  lemma {:induction false} TraceHolds(cfg: Config, states: seq<Pool>, i: nat) returns (p: Places)
    requires cfg.Defined() && Trace(cfg, states) && i < |states|
    ensures Inv(cfg, states[i], p)
    decreases i
  {
    hide Inv, Enabled, Next;
    if i == 0 {
      var c0: nat :| c0 < SIZE_T && states[0] == Start(c0);
      StartHolds(cfg, c0);
      p := AllQueued(Start(c0).queue);
    } else {
      p := TraceHolds(cfg, states, i - 1);
      assert Step(cfg, states[i - 1], states[i - 1 + 1]);
      var a :| Enabled(states[i - 1], a) && Next(cfg, states[i - 1], a) == states[i];
      p := StepKeeps(cfg, states[i - 1], p, a);
    }
  }

  lemma ReachableHolds(cfg: Config, s: Pool) returns (p: Places)
    requires cfg.Defined() && Reachable(cfg, s)
    ensures Inv(cfg, s, p)
  {
    hide Inv, Step;
    var states: seq<Pool> :| Trace(cfg, states) && states[|states| - 1] == s;
    p := TraceHolds(cfg, states, |states| - 1);
  }

  lemma StartIsReachable(cfg: Config, c0: nat)
    requires cfg.Defined() && c0 < SIZE_T
    ensures Reachable(cfg, Start(c0))
  {
    hide Step;
    var states := [Start(c0)];
    assert Trace(cfg, states) && states[|states| - 1] == Start(c0);
  }

  lemma ReachableExtends(cfg: Config, s: Pool, a: Action)
    requires cfg.Defined() && Reachable(cfg, s) && Enabled(s, a)
    ensures Reachable(cfg, Next(cfg, s, a))
  {
    hide Enabled, Next;
    var states: seq<Pool> :| Trace(cfg, states) && states[|states| - 1] == s;
    assert Step(cfg, s, Next(cfg, s, a));
    hide Step;
    var longer := states + [Next(cfg, s, a)];
    assert Trace(cfg, longer) && longer[|longer| - 1] == Next(cfg, s, a);
  }

  /** Where any list of enabled actions leads is reachable. */
  lemma {:induction false} RunsStayReachable(cfg: Config, s: Pool, run: seq<Action>)
    requires cfg.Defined() && Reachable(cfg, s) && IsRun(cfg, s, run)
    ensures Reachable(cfg, After(cfg, s, run))
    decreases |run|
  {
    hide Reachable, Enabled, Next;
    if run != [] {
      ReachableExtends(cfg, s, run[0]);
      RunsStayReachable(cfg, Next(cfg, s, run[0]), run[1..]);
    }
  }

  lemma {:induction false} RunExtends(cfg: Config, s: Pool, run: seq<Action>, a: Action)
    requires cfg.Defined() && IsRun(cfg, s, run) && Enabled(After(cfg, s, run), a)
    ensures IsRun(cfg, s, run + [a]) && After(cfg, s, run + [a]) == Next(cfg, After(cfg, s, run), a)
    decreases |run|
  {
    hide Inv, Enabled, Next;
    if run == [] {
      assert run + [a] == [a] && [a][1..] == [];
      var s' := Next(cfg, s, a);
      assert IsRun(cfg, s', []) && After(cfg, s', []) == s';
    } else {
      RunExtends(cfg, Next(cfg, s, run[0]), run[1..], a);
      assert (run + [a])[1..] == run[1..] + [a];
    }
  }

  /** Some run leads from `from` to `s`. */
  ghost predicate Reaches(cfg: Config, from: Pool, s: Pool)
    requires cfg.Defined()
  {
    exists run :: IsRun(cfg, from, run) && After(cfg, from, run) == s
  }

  lemma Stay(cfg: Config, s: Pool)
    requires cfg.Defined()
    ensures Reaches(cfg, s, s)
  {
    assert IsRun(cfg, s, []) && After(cfg, s, []) == s;
  }

  lemma ReachExtends(cfg: Config, from: Pool, s: Pool, a: Action)
    requires cfg.Defined() && Reaches(cfg, from, s) && Enabled(s, a)
    ensures Reaches(cfg, from, Next(cfg, s, a))
  {
    hide Enabled, Next, IsRun, After;
    var run :| IsRun(cfg, from, run) && After(cfg, from, run) == s;
    RunExtends(cfg, from, run, a);
  }

  lemma ReachedIsReachable(cfg: Config, from: Pool, s: Pool)
    requires cfg.Defined() && Reachable(cfg, from) && Reaches(cfg, from, s)
    ensures Reachable(cfg, s)
  {
    hide Reachable, IsRun, After;
    var run :| IsRun(cfg, from, run) && After(cfg, from, run) == s;
    RunsStayReachable(cfg, from, run);
  }

  // ---------------------------------------------------------------------------------------------
  // The theorems

  predicate IsIdle(s: Pool, n: Node) {
    n in s.queue
  }

  predicate IsHeld(s: Pool, n: Node) {
    Claims(s.handles, n) != {}
  }

  predicate CarriedBy(s: Pool, n: Node, t: Thread) {
    t in s.pcs && n in Carried(s.pcs[t])
  }

  ghost predicate InTransit(s: Pool, n: Node) {
    exists t :: CarriedBy(s, n, t)
  }

  /** No exception of the reference counts and no access to freed memory is reachable. */
  lemma NoFault(cfg: Config, s: Pool, a: Action)
    requires cfg.Defined() && Reachable(cfg, s) && Enabled(s, a)
    ensures s.fault == Clear && Next(cfg, s, a).fault == Clear
  {
    hide Enabled, Next;
    var p := ReachableHolds(cfg, s);
    var p' := StepKeeps(cfg, s, p, a);
  }

  /**
   Every live node is idle with count -10, or held with a count equal to its handles, or in the
   hands of exactly one thread, or was dropped by a failed growth: exactly one of the four.
   */
  lemma EveryNodeInOnePlace(cfg: Config, s: Pool, n: Node)
    requires cfg.Defined() && Reachable(cfg, s) && n in s.counts
    ensures IsIdle(s, n) || IsHeld(s, n) || InTransit(s, n) || n in s.lost
    ensures IsIdle(s, n) ==> s.counts[n] == RECYCLED && !IsHeld(s, n) && !InTransit(s, n) && n !in s.lost
    ensures IsHeld(s, n) ==> s.counts[n] == |Claims(s.handles, n)| >= 1 && !InTransit(s, n) && n !in s.lost
    ensures InTransit(s, n) ==> n !in s.lost
    ensures forall t, u :: CarriedBy(s, n, t) && CarriedBy(s, n, u) ==> t == u
  {
    var p := ReachableHolds(cfg, s);
    HeldIff(cfg, s, p, n);
    CarriedIff(cfg, s, p, n);
    RestIff(cfg, s, p, n);
    hide Inv;
  }

  lemma HeldIff(cfg: Config, s: Pool, p: Places, n: Node)
    requires Inv(cfg, s, p) && n in s.counts
    ensures n in p && (IsHeld(s, n) <==> p[n] == Held)
    ensures p[n] == Held ==> s.counts[n] == |Claims(s.handles, n)| >= 1
  {
    hide QueueInv, RestCountInv, CarryCountInv, CarryInv, GrowInv, CopyInv, LastInv, ModeInv, HistoryInv, CallInv;
  }

  lemma CarriedIff(cfg: Config, s: Pool, p: Places, n: Node)
    requires Inv(cfg, s, p) && n in s.counts
    ensures n in p && (InTransit(s, n) <==> p[n].With?)
    ensures forall t :: CarriedBy(s, n, t) ==> p[n] == With(t, InUse(s.pcs[t]))
  {
    hide QueueInv, RestCountInv, HandleInv, HeldCountInv, GrowInv, CopyInv, LastInv, ModeInv, HistoryInv, CallInv;
    if p[n].With? {
      assert CarriedBy(s, n, p[n].t);
    }
  }

  lemma RestIff(cfg: Config, s: Pool, p: Places, n: Node)
    requires Inv(cfg, s, p) && n in s.counts
    ensures n in p && (IsIdle(s, n) <==> p[n] == InQueue) && (n in s.lost <==> p[n] == Lost)
    ensures p[n] == InQueue ==> s.counts[n] == RECYCLED
  {
    hide CarryCountInv, CarryInv, HandleInv, HeldCountInv, GrowInv, CopyInv, LastInv, ModeInv, CallInv;
  }

  /** Nodes in transit that mUsage does not count. */
  ghost function OffUsage(s: Pool): set<Node> {
    set n | n in s.counts && exists t :: CarriedBy(s, n, t) && !InUse(s.pcs[t])
  }

  /** Queue, usage, uncounted transit and failed growth add up to the live nodes. */
  lemma NodesAreConserved(cfg: Config, s: Pool)
    requires cfg.Defined() && Reachable(cfg, s) && s.recycler
    ensures |s.queue| + s.usage + |OffUsage(s)| + |s.lost| == |s.counts|
    ensures s.usage >= 0 && |s.queue| + s.usage <= |s.counts|
  {
    var p := ReachableHolds(cfg, s);
    hide HandleInv, HeldCountInv, RestCountInv, CarryCountInv, CarryInv, GrowInv, CopyInv, LastInv, ModeInv, CallInv;
    hide QueueInv, HistoryInv, OffUsage, LooseNodes, InUseNodes;
    UncountedIsLoose(cfg, s, p);
    PlacesAddUp(s.queue, s.gone, s.lost, p);
    SameSize(p, s.counts);
  }

  function LooseNodes(p: Places): set<Node> {
    set n | n in p && p[n].With? && !p[n].inUse
  }

  lemma UncountedIsLoose(cfg: Config, s: Pool, p: Places)
    requires Inv(cfg, s, p)
    ensures OffUsage(s) == LooseNodes(p)
  {
    hide QueueInv, RestCountInv, HandleInv, HeldCountInv, CarryCountInv, CarryInv, GrowInv, CopyInv, LastInv, ModeInv;
    hide CallInv;
    forall n | n in s.counts
      ensures n in OffUsage(s) <==> n in LooseNodes(p)
    {
      CarriedIff(cfg, s, p, n);
      UncountedIff(s, p, n);
    }
  }

  lemma UncountedIff(s: Pool, p: Places, n: Node)
    requires n in s.counts && n in p && (InTransit(s, n) <==> p[n].With?)
    requires forall t :: CarriedBy(s, n, t) ==> p[n] == With(t, InUse(s.pcs[t]))
    ensures n in OffUsage(s) <==> n in LooseNodes(p)
  {
    if p[n].With? {
      var t :| CarriedBy(s, n, t);
    }
  }

  lemma PlacesAddUp(queue: seq<Node>, gone: set<Node>, lost: set<Node>, p: Places)
    requires QueueInv(queue, p) && HistoryInv(gone, lost, p)
    ensures |p| == |queue| + |InUseNodes(p)| + |LooseNodes(p)| + |lost|
  {
    DistinctSize(queue);
    PlacesCover(queue, gone, lost, p);
    assert |p| == |p.Keys|;
    hide QueueInv, HistoryInv, LooseNodes, InUseNodes;
    assert |Elements(queue) + InUseNodes(p)| == |Elements(queue)| + |InUseNodes(p)|;
    assert |LooseNodes(p) + lost| == |LooseNodes(p)| + |lost|;
  }

  lemma PlacesCover(queue: seq<Node>, gone: set<Node>, lost: set<Node>, p: Places)
    requires QueueInv(queue, p) && HistoryInv(gone, lost, p)
    ensures p.Keys == (Elements(queue) + InUseNodes(p)) + (LooseNodes(p) + lost)
    ensures Elements(queue) !! InUseNodes(p) && LooseNodes(p) !! lost
    ensures (Elements(queue) + InUseNodes(p)) !! (LooseNodes(p) + lost)
  {
    hide QueueInv, HistoryInv, InUseNodes, LooseNodes, Elements;
    forall n
      ensures n in Elements(queue) <==> n in p && p[n] == InQueue
      ensures n in lost <==> n in p && p[n] == Lost
      ensures n in InUseNodes(p) <==> n in p && CountedAt(p[n])
      ensures n in LooseNodes(p) <==> n in p && p[n].With? && !p[n].inUse
    {
      PlaceSays(queue, gone, lost, p, n);
    }
  }

  lemma PlaceSays(queue: seq<Node>, gone: set<Node>, lost: set<Node>, p: Places, n: Node)
    requires QueueInv(queue, p) && HistoryInv(gone, lost, p)
    ensures n in Elements(queue) <==> n in p && p[n] == InQueue
    ensures n in lost <==> n in p && p[n] == Lost
    ensures n in InUseNodes(p) <==> n in p && CountedAt(p[n])
    ensures n in LooseNodes(p) <==> n in p && p[n].With? && !p[n].inUse
  {
  }

  /**
   The control block counts the live nodes and the pool.  It reaches zero only after the pool is
   gone, and from then on it is deleted already or exactly one thread is about to delete it.
   */
  lemma BlockIsDeletedOnce(cfg: Config, s: Pool)
    requires cfg.Defined() && Reachable(cfg, s)
    ensures !s.freed ==> s.block == |s.counts| + if s.recycler then 1 else 0
    ensures s.freed ==> !s.recycler && s.counts == map[] && forall t | t in s.pcs :: !s.pcs[t].LastOut?
    ensures !s.freed && s.block == 0 ==>
              !s.recycler &&
              exists t :: t in s.pcs && s.pcs[t].LastOut? && forall u | u in s.pcs && s.pcs[u].LastOut? :: u == t
  {
    var p := ReachableHolds(cfg, s);
    hide QueueInv, HandleInv, HeldCountInv, RestCountInv, CarryCountInv, CarryInv, GrowInv, CopyInv, ModeInv, CallInv;
    SameSize(p, s.counts);
    if s.freed {
      assert s.counts.Keys == {};
    }
    if !s.freed && s.block == 0 {
      assert p == map[];
    }
  }

  /** A destroyed node is never live again, so no node is destroyed twice. */
  lemma {:induction false} GoneStaysGone(cfg: Config, s: Pool, run: seq<Action>, n: Node)
    requires cfg.Defined() && Reachable(cfg, s) && IsRun(cfg, s, run) && n in s.gone
    ensures n in After(cfg, s, run).gone && n !in After(cfg, s, run).counts
    decreases |run|
  {
    hide Inv, Enabled, Next;
    if run == [] {
      var p := ReachableHolds(cfg, s);
      GoneIsDead(cfg, s, p);
    } else {
      GoneGrows(cfg, s, run[0]);
      ReachableExtends(cfg, s, run[0]);
      GoneStaysGone(cfg, Next(cfg, s, run[0]), run[1..], n);
    }
  }

  lemma GoneIsDead(cfg: Config, s: Pool, p: Places)
    requires Inv(cfg, s, p)
    ensures s.gone !! s.counts.Keys
  {
    hide QueueInv, HandleInv, HeldCountInv, RestCountInv, CarryCountInv, CarryInv, GrowInv, CopyInv, LastInv, ModeInv;
    hide CallInv;
  }

  lemma SchedulingLeaves(cfg: Config, s: Pool, a: Action)
    requires cfg.Defined() && Enabled(s, a) && Schedules(a)
    ensures var z := Next(cfg, s, a);
            z.gone == s.gone && z.pcs == s.pcs && z.queue == s.queue && (a.CallSnapshot? || z.shrinks == s.shrinks) &&
            (z.reaper.Doomed? && !a.CallSnapshot? ==> z.reaper.due.freed == 0)
  {
    hide Decision;
    match a
    case ShrinkSnapshot =>
    case ShrinkDone =>
    case CallSnapshot(_) =>
  }

  lemma GoneGrows(cfg: Config, s: Pool, a: Action)
    requires cfg.Defined() && Enabled(s, a)
    ensures s.gone <= Next(cfg, s, a).gone
  {
    if Frees(a) {
      FreeLeaves(cfg, s, a);
    } else if Schedules(a) {
      SchedulingLeaves(cfg, s, a);
    } else {
      StepLeaves(cfg, s, a, if a.Move? then 0 else a.t);
    }
    hide Enabled, Next;
  }

  /**
   Handles outlive the pool.  Once the pool is destroyed, every handle dropped and every thread
   finished, the only live nodes are those a failed growth dropped; without one the control block
   has been deleted too.
   */
  lemma NothingLeaks(cfg: Config, s: Pool)
    requires cfg.Defined() && Reachable(cfg, s) && !s.recycler && s.handles == map[] && s.pcs == map[]
    ensures s.counts.Keys == s.lost
    ensures s.lost == {} ==> s.freed
  {
    var p := ReachableHolds(cfg, s);
    forall n | n in s.counts
      ensures n in s.lost
    {
      HeldIff(cfg, s, p, n);
      CarriedIff(cfg, s, p, n);
      RestIff(cfg, s, p, n);
      DeadQueue(cfg, s, p);
    }
    LostIsLive(cfg, s, p);
    if s.lost == {} {
      NoneLeft(cfg, s, p);
    }
  }

  lemma DeadQueue(cfg: Config, s: Pool, p: Places)
    requires Inv(cfg, s, p) && !s.recycler
    ensures s.queue == []
  {
    hide QueueInv, HandleInv, HeldCountInv, RestCountInv, CarryCountInv, CarryInv, GrowInv, CopyInv, LastInv, ModeInv;
    hide CallInv;
  }

  lemma LostIsLive(cfg: Config, s: Pool, p: Places)
    requires Inv(cfg, s, p)
    ensures s.lost <= s.counts.Keys
  {
    hide QueueInv, HandleInv, HeldCountInv, RestCountInv, CarryCountInv, CarryInv, GrowInv, CopyInv, LastInv, ModeInv;
    hide CallInv;
  }

  lemma NoneLeft(cfg: Config, s: Pool, p: Places)
    requires Inv(cfg, s, p) && !s.recycler && s.counts.Keys == {} && s.pcs == map[]
    ensures s.freed
  {
    hide QueueInv, HandleInv, HeldCountInv, RestCountInv, CarryCountInv, CarryInv, GrowInv, CopyInv, ModeInv;
    hide HistoryInv, CallInv;
    assert p.Keys == {};
    assert p == map[];
  }

  // ---------------------------------------------------------------------------------------------
  // Growth and shrinking

  /** A growth drops its node exactly when the usage it read was 1. */
  lemma GrowthLosesIff(cfg: Config, s: Pool, t: Thread)
    requires cfg.Defined() && Reachable(cfg, s) && Enabled(s, Publish(t))
    ensures var want := s.pcs[t].want;
            var s' := Next(cfg, s, Publish(t));
            if want == 1 then |s'.lost| == |s.lost| + 1 && s'.queue == s.queue
            else s'.lost == s.lost && |s'.queue| == |s.queue| + want - 1
  {
    hide QueueInv, HandleInv, HeldCountInv, RestCountInv, CarryCountInv, CarryInv, GrowInv, CopyInv;
    hide LastInv, ModeInv, ReaperInv, HistoryInv, CallInv, Next, Reachable;
    PublishGives(cfg, s, t);
    hide Enabled;
    var p := ReachableHolds(cfg, s);
    ModeFacts(cfg, s, p, t);
    SpareFacts(cfg, s, p, t);
    if s.pcs[t].want == 1 {
      DistinctSize(s.pcs[t].spare);
      SpareNotLost(s.gone, s.lost, s.counts, p, Elements(s.pcs[t].spare), t);
    }
  }

  /** No step but its own publication ends a growth or changes what it creates. */
  lemma GrowthGoesOn(cfg: Config, s: Pool, t: Thread, a: Action)
    requires cfg.Defined() && Enabled(s, a) && t in s.pcs && s.pcs[t].Growing? && a != Publish(t)
    ensures var s' := Next(cfg, s, a);
            t in s'.pcs && s'.pcs[t].Growing? && s'.pcs[t].want == s.pcs[t].want
  {
    hide Next;
    if a == CreateNode(t, if a.CreateNode? then a.node else 0) {
      CreatingGoesOn(cfg, s, t, a.node);
    } else {
      GrowerIsElsewhere(s, t, a);
      hide Enabled;
      if Frees(a) {
        FreeLeaves(cfg, s, a);
      } else if Schedules(a) {
        SchedulingLeaves(cfg, s, a);
      } else {
        StepLeaves(cfg, s, a, if a.Move? then t + 1 else a.t);
      }
    }
  }

  lemma CreatingGoesOn(cfg: Config, s: Pool, t: Thread, n: Node)
    requires cfg.Defined() && Enabled(s, CreateNode(t, n)) && t in s.pcs && s.pcs[t].Growing?
    ensures var s' := Next(cfg, s, CreateNode(t, n));
            t in s'.pcs && s'.pcs[t].Growing? && s'.pcs[t].want == s.pcs[t].want
  {
  }

  lemma GrowerIsElsewhere(s: Pool, t: Thread, a: Action)
    requires Enabled(s, a) && t in s.pcs && s.pcs[t].Growing? && a != Publish(t) && !(a.CreateNode? && a.t == t)
    ensures !a.Move? && !a.ShrinkDelete? && !a.CallDelete? && !Schedules(a) ==> a.t != t
  {
    hide Borrowed, Quiet;
  }

  lemma {:induction false} GrowthRuns(cfg: Config, s: Pool, t: Thread, run: seq<Action>)
    requires cfg.Defined() && Reachable(cfg, s) && IsRun(cfg, s, run) && t in s.pcs && s.pcs[t].Growing?
    requires forall i | 0 <= i < |run| :: run[i] != Publish(t)
    ensures var z := After(cfg, s, run);
            t in z.pcs && z.pcs[t].Growing? && z.pcs[t].want == s.pcs[t].want
    decreases |run|
  {
    hide Reachable, Enabled, Next;
    if run != [] {
      GrowthGoesOn(cfg, s, t, run[0]);
      ReachableExtends(cfg, s, run[0]);
      GrowthRuns(cfg, Next(cfg, s, run[0]), t, run[1..]);
    }
  }

  /**
   An acquire that missed throws exactly when the usage it then reads is at most 1: at once when it
   is 0, and otherwise, whatever happens in between, when it comes to publish.
   */
  lemma MissedAcquireThrowsIff(cfg: Config, s: Pool, t: Thread, run: seq<Action>)
    requires cfg.Defined() && Reachable(cfg, s) && Enabled(s, LoadUsage(t))
    requires IsRun(cfg, Next(cfg, s, LoadUsage(t)), run)
    requires forall i | 0 <= i < |run| :: run[i] != Publish(t)
    ensures t !in Next(cfg, s, LoadUsage(t)).pcs <==> s.usage <= 0
    ensures var z := After(cfg, Next(cfg, s, LoadUsage(t)), run);
            s.usage > 0 && Enabled(z, Publish(t)) ==>
              (t !in Next(cfg, z, Publish(t)).pcs <==> s.usage == 1) &&
              (t in Next(cfg, z, Publish(t)).pcs ==> Next(cfg, z, Publish(t)).pcs[t].Published?)
  {
    LoadUsageGives(cfg, s, t);
    hide Reachable, Enabled, Next;
    ReachableExtends(cfg, s, LoadUsage(t));
    var s1 := Next(cfg, s, LoadUsage(t));
    RunsStayReachable(cfg, s1, run);
    if s.usage > 0 {
      GrowthRuns(cfg, s1, t, run);
      hide IsRun, After;
      var z := After(cfg, s1, run);
      if Enabled(z, Publish(t)) {
        PublishThrowsIff(cfg, z, t);
      }
    }
  }

  lemma LoadUsageGives(cfg: Config, s: Pool, t: Thread)
    requires cfg.Defined() && Enabled(s, LoadUsage(t))
    ensures t in s.pcs && s.pcs[t].Missed?
    ensures Next(cfg, s, LoadUsage(t)).pcs ==
            if s.usage <= 0 then s.pcs - {t} else s.pcs[t := Growing(s.usage, s.usage, [], None)]
  {
  }

  lemma PublishThrowsIff(cfg: Config, s: Pool, t: Thread)
    requires cfg.Defined() && Reachable(cfg, s) && Enabled(s, Publish(t))
    ensures var s' := Next(cfg, s, Publish(t));
            (t !in s'.pcs <==> s.pcs[t].want == 1) && (t in s'.pcs ==> s'.pcs[t].Published?)
  {
    hide Reachable, Inv, Elements, Next;
    PublishGives(cfg, s, t);
    hide Enabled;
    var p := ReachableHolds(cfg, s);
    ModeFacts(cfg, s, p, t);
  }

  lemma SpareNotLost(gone: set<Node>, lost: set<Node>, counts: map<Node, int>, p: Places, ns: set<Node>, t: Thread)
    requires p.Keys == counts.Keys && HistoryInv(gone, lost, p) && SpareOf(counts, p, ns, t)
    ensures lost !! ns && |lost + ns| == |lost| + |ns|
  {
    assert lost !! ns;
  }

  // ---------------------------------------------------------------------------------------------
  // A growth that throws

  /** A live pool under its default settings, without a shrink and with nothing destroyed. */
  function Racing(counts: map<Node, int>, handles: map<Handle, Node>, queue: seq<Node>, usage: int, block: int,
                  lost: set<Node>, pcs: map<Thread, Pc>): Pool
  {
    Pool(counts, handles, queue, usage, false, Off, block, true, false, {}, lost, map[], pcs, Clear)
  }

  /** Takes one action more. */
  lemma Then(s: Pool, a: Action, z: Pool)
    requires Reaches(DEFAULT, Start(2), s) && Enabled(s, a) && Next(DEFAULT, s, a) == z
    ensures Reaches(DEFAULT, Start(2), z)
  {
    hide Reaches, Enabled, Next;
    ReachExtends(DEFAULT, Start(2), s, a);
  }

  /**
   The sequential guarantee that growth never fails does not survive interleaving: from a pool of
   two nodes, one node is returned between the miss and the read of mUsage, and the growth that
   then creates a single node throws and drops it.
   */
  lemma ConcurrentGrowthFails()
    ensures Reaches(DEFAULT, Start(2), Racing(map[0 := RECYCLED, 1 := 1, 7 := RECYCLED], map[1 := 1], [], 1, 4, {7},
                                              map[0 := Uncounted(0)]))
  {
    hide Reaches, Enabled, Next;
    BothHeld();
    OneReturns();
    MissedGrows();
    var counts := map[0 := RECYCLED, 1 := 1, 7 := RECYCLED];
    var pcs: map<Thread, Pc> := map[2 := Growing(1, 0, [7], None), 0 := Uncounted(0)];
    var s := Racing(counts, map[1 := 1], [], 1, 4, {}, pcs);
    PublishThrows(s);
    assert pcs - {2} == map[0 := Uncounted(0)];
    Then(s, Publish(2), Racing(counts, map[1 := 1], [], 1, 4, {7}, pcs - {2}));
  }

  lemma PublishThrows(s: Pool)
    requires s.fault == Clear && 2 in s.pcs && s.pcs[2] == Growing(1, 0, [7], None) && s.lost == {}
    ensures Enabled(s, Publish(2)) && Next(DEFAULT, s, Publish(2)) == s.(lost := {7}, pcs := s.pcs - {2})
  {
    var spare: seq<Node> := [7];
    assert {} + Elements(spare) == {7};
    hide Elements;
  }

  /** Both nodes are handed out. */
  lemma BothHeld()
    ensures Reaches(DEFAULT, Start(2), Racing(map[0 := 1, 1 := 1], map[0 := 0, 1 := 1], [], 2, 3, {}, map[2 := Missed]))
  {
    hide Reaches, Enabled, Next;
    var s0 := Racing(map[0 := RECYCLED, 1 := RECYCLED], map[], [0, 1], 0, 3, {}, map[]);
    TwoIdle();
    var s1 := Racing(map[0 := 1, 1 := RECYCLED], map[0 := 0], [1], 1, 3, {}, map[]);
    FrontIsTaken(s0, 0, 0);
    assert [0, 1][1..] == [1];
    Then(s0, Action.Acquire(0, 0), s1);
    var s2 := Racing(map[0 := 1, 1 := 1], map[0 := 0, 1 := 1], [], 2, 3, {}, map[]);
    FrontIsTaken(s1, 1, 1);
    assert [1][1..] == [];
    Then(s1, Action.Acquire(1, 1), s2);
    QueueIsMissed(s2, 2, 2);
    Then(s2, Action.Acquire(2, 2), s2.(pcs := map[2 := Missed]));
  }

  lemma TwoIdle()
    ensures Reaches(DEFAULT, Start(2), Racing(map[0 := RECYCLED, 1 := RECYCLED], map[], [0, 1], 0, 3, {}, map[]))
  {
    assert Start(2).queue == [0, 1] && Start(2).counts == map[0 := RECYCLED, 1 := RECYCLED];
    Stay(DEFAULT, Start(2));
    hide Reaches;
  }

  lemma FrontIsTaken(s: Pool, t: Thread, into: Handle)
    requires s.fault == Clear && s.recycler && s.pcs == map[] && into !in s.handles
    requires s.queue != [] && s.queue[0] in s.counts && s.counts[s.queue[0]] == RECYCLED
    ensures Enabled(s, Action.Acquire(t, into))
    ensures Next(DEFAULT, s, Action.Acquire(t, into)) ==
            s.(queue := s.queue[1..], usage := s.usage + 1, counts := s.counts[s.queue[0] := 1],
               handles := s.handles[into := s.queue[0]])
  {
    hide Fail, Go;
  }

  lemma QueueIsMissed(s: Pool, t: Thread, into: Handle)
    requires s.fault == Clear && s.recycler && s.pcs == map[] && into !in s.handles && s.queue == []
    ensures Enabled(s, Action.Acquire(t, into)) &&
            Next(DEFAULT, s, Action.Acquire(t, into)) == s.(pcs := map[t := Missed])
  {
  }

  /** One node is on its way back: the usage has fallen, the queue has not grown yet. */
  lemma OneReturns()
    requires Reaches(DEFAULT, Start(2),
               Racing(map[0 := 1, 1 := 1], map[0 := 0, 1 := 1], [], 2, 3, {}, map[2 := Missed]))
    ensures Reaches(DEFAULT, Start(2), Racing(map[0 := RECYCLED, 1 := 1], map[1 := 1], [], 1, 3, {},
                                              map[2 := Missed, 0 := Uncounted(0)]))
  {
    hide Reaches;
    var s := Racing(map[0 := 1, 1 := 1], map[0 := 0, 1 := 1], [], 2, 3, {}, map[2 := Missed]);
    assert s.handles - {0} == map[1 := 1];
    var s1 := Racing(map[0 := 0, 1 := 1], map[1 := 1], [], 2, 3, {}, map[2 := Missed, 0 := Dropped(0)]);
    assert Enabled(s, Drop(0, 0)) && DoDrop(s, 0, 0) == s1;
    Then(s, Drop(0, 0), s1);
    hide Enabled, Next;
    DroppedReturns(s1);
  }

  lemma DroppedReturns(s: Pool)
    requires s == Racing(map[0 := 0, 1 := 1], map[1 := 1], [], 2, 3, {}, map[2 := Missed, 0 := Dropped(0)])
    requires Reaches(DEFAULT, Start(2), s)
    ensures Reaches(DEFAULT, Start(2), Racing(map[0 := RECYCLED, 1 := 1], map[1 := 1], [], 1, 3, {},
                                              map[2 := Missed, 0 := Uncounted(0)]))
  {
    hide Reaches, Enabled, Next;
    var s1 := s.(pcs := map[2 := Missed, 0 := Returning(0)]);
    PoolIsFound(s);
    Then(s, FindRecycler(0), s1);
    var s2 := s1.(counts := map[0 := RECYCLED, 1 := 1], pcs := map[2 := Missed, 0 := Recycled(0)]);
    NodeIsRecycled(s1);
    Then(s1, Action.OnRecycle(0), s2);
    var s3 := s2.(usage := 1, pcs := map[2 := Missed, 0 := Uncounted(0)]);
    UsageIsLowered(s2);
    Then(s2, SubUsage(0), s3);
  }

  lemma PoolIsFound(s: Pool)
    requires s.fault == Clear && s.recycler && !s.freed && 0 in s.counts && s.pcs == map[2 := Missed, 0 := Dropped(0)]
    ensures Enabled(s, FindRecycler(0))
    ensures Next(DEFAULT, s, FindRecycler(0)) == s.(pcs := map[2 := Missed, 0 := Returning(0)])
  {
    hide Fail;
  }

  lemma NodeIsRecycled(s: Pool)
    requires s.fault == Clear && s.counts == map[0 := 0, 1 := 1] && s.pcs == map[2 := Missed, 0 := Returning(0)]
    ensures Enabled(s, Action.OnRecycle(0))
    ensures Next(DEFAULT, s, Action.OnRecycle(0)) ==
            s.(counts := map[0 := RECYCLED, 1 := 1], pcs := map[2 := Missed, 0 := Recycled(0)])
  {
    hide Fail;
  }

  lemma UsageIsLowered(s: Pool)
    requires s.fault == Clear && s.usage == 2 && s.pcs == map[2 := Missed, 0 := Recycled(0)]
    ensures Enabled(s, SubUsage(0))
    ensures Next(DEFAULT, s, SubUsage(0)) == s.(usage := 1, pcs := map[2 := Missed, 0 := Uncounted(0)])
  {
    hide Fail;
  }

  /** The acquire that missed reads usage 1 and creates node 7. */
  lemma MissedGrows()
    requires Reaches(DEFAULT, Start(2), Racing(map[0 := RECYCLED, 1 := 1], map[1 := 1], [], 1, 3, {},
                                               map[2 := Missed, 0 := Uncounted(0)]))
    ensures Reaches(DEFAULT, Start(2), Racing(map[0 := RECYCLED, 1 := 1, 7 := RECYCLED], map[1 := 1], [], 1, 4, {},
                                              map[2 := Growing(1, 0, [7], None), 0 := Uncounted(0)]))
  {
    hide Reaches, Enabled, Next;
    var s := Racing(map[0 := RECYCLED, 1 := 1], map[1 := 1], [], 1, 3, {}, map[2 := Missed, 0 := Uncounted(0)]);
    OneIsRead(s);
    var s1 := s.(pcs := map[2 := Growing(1, 1, [], None), 0 := Uncounted(0)]);
    Then(s, LoadUsage(2), s1);
    SevenIsCreated(s1);
    Then(s1, CreateNode(2, 7), s1.(counts := map[0 := RECYCLED, 1 := 1, 7 := RECYCLED], block := 4,
                                   pcs := map[2 := Growing(1, 0, [7], None), 0 := Uncounted(0)]));
  }

  lemma OneIsRead(s: Pool)
    requires s.fault == Clear && s.usage == 1 && s.pcs == map[2 := Missed, 0 := Uncounted(0)]
    ensures Enabled(s, LoadUsage(2))
    ensures Next(DEFAULT, s, LoadUsage(2)) == s.(pcs := map[2 := Growing(1, 1, [], None), 0 := Uncounted(0)])
  {
    hide Rest;
  }

  lemma SevenIsCreated(s: Pool)
    requires s.fault == Clear && !s.freed && s.gone == {} && s.block == 3 && s.counts == map[0 := RECYCLED, 1 := 1]
    requires s.pcs == map[2 := Growing(1, 1, [], None), 0 := Uncounted(0)]
    ensures Enabled(s, CreateNode(2, 7))
    ensures Next(DEFAULT, s, CreateNode(2, 7)) ==
            s.(counts := map[0 := RECYCLED, 1 := 1, 7 := RECYCLED], block := 4,
               pcs := map[2 := Growing(1, 0, [7], None), 0 := Uncounted(0)])
  {
    TwoFit(s.counts);
    assert Enabled(s, CreateNode(2, 7));
    CreateNodeGives(DEFAULT, s, 2, 7);
    hide Enabled, Next;
    var spare: seq<Node> := [];
    assert spare + [7] == [7];
  }

  lemma TwoFit(counts: map<Node, int>)
    requires counts == map[0 := RECYCLED, 1 := 1]
    ensures 7 !in counts && |counts| == 2
  {
  }

  /** A push starts a background shrink only when none is under way. */
  lemma OneShrinkAtATime(cfg: Config, s: Pool, t: Thread)
    requires cfg.Defined() && Reachable(cfg, s) && Enabled(s, Push(t))
    ensures Next(cfg, s, Push(t)).reaper != s.reaper ==> s.reaper == Off
  {
    hide AsSize;
    hide QueueInv, HandleInv, HeldCountInv, RestCountInv, CarryCountInv, CarryInv, GrowInv, CopyInv, LastInv, ModeInv;
    hide HistoryInv, CallInv;
    var p := ReachableHolds(cfg, s);
    ModeFacts(cfg, s, p, t);
  }

  /** The deletion of a shrink, in the background or called. */
  predicate IsDeletion(a: Action) {
    a.ShrinkDelete? || a.CallDelete?
  }

  function DueOf(s: Pool, a: Action): Pending
    requires IsDeletion(a) && Enabled(s, a)
  {
    match a
    case ShrinkDelete => s.reaper.due
    case CallDelete(c) => s.shrinks[c]
  }

  /**
   A stale count leaves 64 live nodes less those that other shrinks freed since its snapshot, hence
   64 when none did; and only idle nodes are freed.
   */
  lemma ShrinkKeepsTheFloor(cfg: Config, s: Pool, a: Action)
    requires cfg.Sane() && Reachable(cfg, s) && IsDeletion(a) && Enabled(s, a)
    ensures var s' := Next(cfg, s, a);
            |s'.counts| + DueOf(s, a).freed >= MINIMUM_CAPACITY &&
            (forall n | n in s.counts && (IsHeld(s, n) || InTransit(s, n)) ::
              n in s'.counts && s'.counts[n] == s.counts[n])
  {
    hide Inv, Enabled, Next, Elements, IsHeld, InTransit;
    var p := ReachableHolds(cfg, s);
    var k := ShrinkDeletes(cfg, s, p, a);
    IdleAreNotUsed(cfg, s, p, k);
  }

  /** The count is capped by the queue, so the freed nodes are a prefix of it. */
  lemma ShrinkDeletes(cfg: Config, s: Pool, p: Places, a: Action) returns (k: nat)
    requires cfg.Sane() && Inv(cfg, s, p) && IsDeletion(a) && Enabled(s, a)
    ensures k == Min(DueOf(s, a).num, |s.queue|)
    ensures Next(cfg, s, a).counts == s.counts - Elements(s.queue[..k])
    ensures Next(cfg, s, a).queue == s.queue[k..]
    ensures |s.counts - Elements(s.queue[..k])| == |s.counts| - k
    ensures |s.counts| - k + DueOf(s, a).freed >= MINIMUM_CAPACITY
  {
    hide Inv, Next, Elements, Covered;
    k := Min(DueOf(s, a).num, |s.queue|);
    DueIsCovered(cfg, s, p, a);
    DeletionFrees(cfg, s, p, k);
    DeletionIsDeleted(cfg, s, a);
    CoveredLeaves(cfg, DueOf(s, a), |s.counts|, k);
  }

  lemma CoveredLeaves(cfg: Config, due: Pending, live: nat, k: nat)
    requires cfg.Sane() && Covered(cfg, due, live) && k <= due.num
    ensures live - k + due.freed >= MINIMUM_CAPACITY
  {
  }

  lemma DeletionFrees(cfg: Config, s: Pool, p: Places, k: nat)
    requires Inv(cfg, s, p) && s.recycler && k <= |s.queue|
    ensures |p| == |s.counts| && |s.counts - Elements(s.queue[..k])| == |s.counts| - k
    ensures FreeNodes(s, s.queue[..k]).fault == Clear
    ensures FreeNodes(s, s.queue[..k]).counts == s.counts - Elements(s.queue[..k])
  {
    hide QueueInv, HandleInv, HeldCountInv, RestCountInv, CarryCountInv, CarryInv, GrowInv, CopyInv, LastInv, ModeInv;
    hide HistoryInv, CallInv, FreeNodes, Elements, InUseNodes;
    FreeQueuedKeeps(cfg, s, p, k);
    SameSize(p, s.counts);
    SameSize(p - Elements(s.queue[..k]), s.counts - Elements(s.queue[..k]));
  }

  lemma DeletionIsDeleted(cfg: Config, s: Pool, a: Action)
    requires cfg.Defined() && IsDeletion(a) && Enabled(s, a)
    requires FreeNodes(s, s.queue[..Min(DueOf(s, a).num, |s.queue|)]).fault == Clear
    ensures s.recycler
    ensures Next(cfg, s, a).counts == FreeNodes(s, s.queue[..Min(DueOf(s, a).num, |s.queue|)]).counts
    ensures Next(cfg, s, a).queue == s.queue[Min(DueOf(s, a).num, |s.queue|)..]
  {
    hide FreeNodes, AgedCalls, AgedReaper;
    match a
    case ShrinkDelete =>
    case CallDelete(c) =>
  }

  lemma IdleAreNotUsed(cfg: Config, s: Pool, p: Places, k: nat)
    requires Inv(cfg, s, p) && k <= |s.queue|
    ensures forall n | n in s.counts && (IsHeld(s, n) || InTransit(s, n)) :: n !in Elements(s.queue[..k])
  {
    hide QueueInv, HandleInv, HeldCountInv, RestCountInv, CarryCountInv, CarryInv, GrowInv, CopyInv, LastInv, ModeInv;
    hide HistoryInv, CallInv;
    forall n | n in s.counts && (IsHeld(s, n) || InTransit(s, n))
      ensures n !in Elements(s.queue[..k])
    {
      HeldIff(cfg, s, p, n);
      CarriedIff(cfg, s, p, n);
      RestIff(cfg, s, p, n);
    }
  }

  lemma DueIsCovered(cfg: Config, s: Pool, p: Places, a: Action)
    requires cfg.Defined() && Inv(cfg, s, p) && IsDeletion(a) && Enabled(s, a)
    ensures Covered(cfg, DueOf(s, a), |p|)
  {
    hide QueueInv, HandleInv, HeldCountInv, RestCountInv, CarryCountInv, CarryInv, GrowInv, CopyInv, LastInv, ModeInv;
  }

  // ---------------------------------------------------------------------------------------------
  // Overlapping shrinks

  /** Some reachable deletion leaves fewer than 64 live nodes. */
  ghost predicate SomeShrinkPassesTheFloor(cfg: Config)
    requires cfg.Defined()
  {
    exists s, a :: Reachable(cfg, s) && IsDeletion(a) && Enabled(s, a) && |Next(cfg, s, a).counts| < MINIMUM_CAPACITY
  }

  /**
   Direct calls of Shrink may overlap.  Under sane settings they can pass the floor exactly when the
   settings free any node at all: enough calls may decide before the first one deletes.
   */
  lemma OverlapPassesTheFloorIff(cfg: Config)
    requires cfg.Sane()
    ensures SomeShrinkPassesTheFloor(cfg) <==> TakesSome(cfg)
  {
    hide Decides, SomeShrinkPassesTheFloor, TakesSome;
    DecidesIff(cfg);
    if SomeShrinkPassesTheFloor(cfg) {
      PassingDecides(cfg);
    }
    if Decides(cfg) {
      DecidingPasses(cfg);
    }
  }

  lemma DecidesIff(cfg: Config)
    requires cfg.Sane()
    ensures Decides(cfg) <==> TakesSome(cfg)
  {
    hide ShrinkNum;
    if Decides(cfg) {
      var usage: nat, total: nat :| total < SIZE_T && ShrinkNum(cfg, usage, total) > 0;
      FreeingTakes(cfg, usage, total);
    }
    if TakesSome(cfg) {
      LargestFrees(cfg);
    }
  }

  lemma PassingDecides(cfg: Config)
    requires cfg.Sane() && SomeShrinkPassesTheFloor(cfg)
    ensures Decides(cfg)
  {
    hide Enabled, Next, Decides, Reachable;
    var s, a :| Reachable(cfg, s) && IsDeletion(a) && Enabled(s, a) && |Next(cfg, s, a).counts| < MINIMUM_CAPACITY;
    var p := ReachableHolds(cfg, s);
    DueMeansDecides(cfg, s, p, a);
  }

  lemma DecidingPasses(cfg: Config)
    requires cfg.Sane() && Decides(cfg)
    ensures SomeShrinkPassesTheFloor(cfg)
  {
    hide Reachable, SomeShrinkPassesTheFloor;
    var usage: nat, total: nat :| total < SIZE_T && ShrinkNum(cfg, usage, total) > 0;
    IdleDecides(cfg, usage, total);
    hide ShrinkNum;
    StartIsReachable(cfg, total);
    var s := Start(total);
    StartIsIdle(total);
    assert Decision(cfg, s) == ShrinkNum(cfg, 0, total);
    CallMany(cfg, s, total);
    PassFloor(cfg, s.(shrinks := Calls(total, Decision(cfg, s))));
  }

  lemma StartIsIdle(c0: nat)
    ensures |Start(c0).counts| == |Start(c0).queue| == c0
  {
    DistinctSize(Start(c0).queue);
    assert Start(c0).counts.Keys == Elements(Start(c0).queue);
  }

  lemma DueMeansDecides(cfg: Config, s: Pool, p: Places, a: Action)
    requires cfg.Sane() && Inv(cfg, s, p) && IsDeletion(a) && Enabled(s, a)
    ensures Decides(cfg)
  {
    hide QueueInv, HandleInv, HeldCountInv, RestCountInv, CarryCountInv, CarryInv, GrowInv, CopyInv, LastInv, ModeInv;
    hide Decides;
  }

  /** If any usage makes a shrink free nodes, no usage does. */
  lemma IdleDecides(cfg: Config, usage: nat, total: nat)
    requires cfg.Sane() && total < SIZE_T && ShrinkNum(cfg, usage, total) > 0
    ensures ShrinkNum(cfg, 0, total) > 0 && total >= MINIMUM_CAPACITY
  {
    hide KeepFloor, Rated;
    AsSizeOfSize(cfg.shrinkCount);
  }

  function Calls(n: nat, num: nat): (r: map<Call, Pending>)
    ensures |r| == n && forall c | c in r :: c < n && r[c] == Pending(num, 0)
  {
    if n == 0 then map[] else Calls(n - 1, num)[n - 1 := Pending(num, 0)]
  }

  /** `n` threads call Shrink and none has deleted yet. */
  lemma {:induction false} CallMany(cfg: Config, s: Pool, n: nat)
    requires cfg.Defined() && Reachable(cfg, s) && s.recycler && s.fault == Clear && s.shrinks == map[]
    requires Decision(cfg, s) > 0
    ensures Reachable(cfg, s.(shrinks := Calls(n, Decision(cfg, s))))
    decreases n
  {
    hide Reachable, ShrinkNum, Enabled, Next, Decision;
    if n == 0 {
      assert s.(shrinks := map[]) == s;
    } else {
      CallMany(cfg, s, n - 1);
      var before := s.(shrinks := Calls(n - 1, Decision(cfg, s)));
      OneMoreCalls(cfg, s, before.shrinks, n - 1);
      ReachableExtends(cfg, before, CallSnapshot(n - 1));
    }
  }

  lemma OneMoreCalls(cfg: Config, s: Pool, shrinks: map<Call, Pending>, c: Call)
    requires cfg.Defined() && s.recycler && s.fault == Clear && c !in shrinks && Decision(cfg, s) > 0
    ensures var before := s.(shrinks := shrinks);
            Enabled(before, CallSnapshot(c)) &&
            Next(cfg, before, CallSnapshot(c)) == s.(shrinks := shrinks[c := Pending(Decision(cfg, s), 0)])
  {
    hide ShrinkNum;
    assert Decision(cfg, s.(shrinks := shrinks)) == Decision(cfg, s);
  }

  /** All live nodes are idle, and as many calls have decided to free some. */
  ghost predicate Crowded(cfg: Config, s: Pool)
    requires cfg.Defined()
  {
    Reachable(cfg, s) && s.recycler && |s.counts| == |s.queue| >= MINIMUM_CAPACITY && |s.shrinks| >= |s.queue| &&
    forall c | c in s.shrinks :: s.shrinks[c].num > 0
  }

  lemma {:induction false} PassFloor(cfg: Config, s: Pool)
    requires cfg.Sane() && Crowded(cfg, s)
    ensures SomeShrinkPassesTheFloor(cfg)
    decreases |s.queue|
  {
    hide Reachable, Enabled, Next;
    var c := SomeElement(s.shrinks.Keys);
    CallIsEnabled(cfg, s, c);
    var p := ReachableHolds(cfg, s);
    var k := ShrinkDeletes(cfg, s, p, CallDelete(c));
    if |s.counts| - k < MINIMUM_CAPACITY {
      assert |Next(cfg, s, CallDelete(c)).counts| < MINIMUM_CAPACITY;
    } else {
      ReachableExtends(cfg, s, CallDelete(c));
      CallLeaves(cfg, s, c);
      PassFloor(cfg, Next(cfg, s, CallDelete(c)));
    }
  }

  lemma CallIsEnabled(cfg: Config, s: Pool, c: Call)
    requires cfg.Defined() && Reachable(cfg, s) && s.recycler && c in s.shrinks
    ensures Enabled(s, CallDelete(c)) && DueOf(s, CallDelete(c)) == s.shrinks[c]
  {
    hide Reachable;
    var p := ReachableHolds(cfg, s);
    hide QueueInv, HandleInv, HeldCountInv, RestCountInv, CarryCountInv, CarryInv, GrowInv, CopyInv, LastInv, ModeInv;
    hide CallInv;
  }

  lemma CallLeaves(cfg: Config, s: Pool, c: Call)
    requires cfg.Sane() && Reachable(cfg, s) && Enabled(s, CallDelete(c)) &&
             (forall d | d in s.shrinks :: s.shrinks[d].num > 0)
    ensures var s' := Next(cfg, s, CallDelete(c));
            s'.recycler == s.recycler && |s'.shrinks| == |s.shrinks| - 1 && forall d | d in s'.shrinks ::
              s'.shrinks[d].num > 0
  {
    NoFault(cfg, s, CallDelete(c));
    hide Reachable, FreeNodes;
    var k := Min(s.shrinks[c].num, |s.queue|);
    assert AgedCalls(s.shrinks - {c}, k).Keys == s.shrinks.Keys - {c};
    FreeingLeaves(s, s.queue[..k]);
  }

  /** Without direct calls every deletion leaves 64 live nodes. */
  lemma {:induction false} BackgroundAloneKeepsTheFloor(cfg: Config, s: Pool, run: seq<Action>)
    requires cfg.Sane() && Reachable(cfg, s) && IsRun(cfg, s, run) && s.shrinks == map[] && s.reaper == Off
    requires forall i | 0 <= i < |run| :: !run[i].CallSnapshot?
    ensures var z := After(cfg, s, run);
            Enabled(z, ShrinkDelete) ==> |Next(cfg, z, ShrinkDelete).counts| >= MINIMUM_CAPACITY
  {
    hide Reachable, Enabled, Next;
    RunsStayReachable(cfg, s, run);
    AloneStaysAlone(cfg, s, run);
    var z := After(cfg, s, run);
    if Enabled(z, ShrinkDelete) {
      DoomedIsEnabled(z);
      ShrinkKeepsTheFloor(cfg, z, ShrinkDelete);
    }
  }

  lemma DoomedIsEnabled(s: Pool)
    requires Enabled(s, ShrinkDelete)
    ensures s.reaper.Doomed?
  {
  }

  ghost predicate Alone(s: Pool) {
    s.shrinks == map[] && (s.reaper.Doomed? ==> s.reaper.due.freed == 0)
  }

  lemma {:induction false} AloneStaysAlone(cfg: Config, s: Pool, run: seq<Action>)
    requires cfg.Defined() && IsRun(cfg, s, run) && Alone(s) && forall i | 0 <= i < |run| :: !run[i].CallSnapshot?
    ensures Alone(After(cfg, s, run))
    decreases |run|
  {
    hide Enabled, Next, Alone;
    if run != [] {
      AloneStep(cfg, s, run[0]);
      AloneStaysAlone(cfg, Next(cfg, s, run[0]), run[1..]);
    }
  }

  lemma AloneStep(cfg: Config, s: Pool, a: Action)
    requires cfg.Defined() && Enabled(s, a) && Alone(s) && !a.CallSnapshot?
    ensures Alone(Next(cfg, s, a))
  {
    hide Enabled, Next;
    if Frees(a) {
      FreeingStaysAlone(cfg, s, a);
    } else if Schedules(a) {
      SchedulingLeaves(cfg, s, a);
    } else {
      StepLeaves(cfg, s, a, if a.Move? then 0 else a.t);
    }
  }

  lemma FreeingStaysAlone(cfg: Config, s: Pool, a: Action)
    requires cfg.Defined() && Enabled(s, a) && Alone(s) && Frees(a)
    ensures Alone(Next(cfg, s, a))
  {
    hide DoDestroyNode, DoShrinkDelete, DoCallDelete, DoDestroyPool, Quiet, Alone;
    NoCallIsAlone(s);
    match a
    case DestroyNode(t) => { NodeDiesAlone(s, t); }
    case ShrinkDelete => { ShrinkEndsAlone(s); }
    case CallDelete(c) =>
    case DestroyPool(t) => { PoolDiesAlone(s, t); }
  }

  lemma NoCallIsAlone(s: Pool)
    requires Alone(s)
    ensures s.shrinks == map[]
  {
  }

  lemma NodeDiesAlone(s: Pool, t: Thread)
    requires Alone(s) && t in s.pcs && s.pcs[t].Orphan?
    ensures Alone(DoDestroyNode(s, t))
  {
    hide FreeNodes;
    FreeingLeaves(s, [s.pcs[t].node]);
  }

  lemma ShrinkEndsAlone(s: Pool)
    requires Alone(s) && s.reaper.Doomed?
    ensures Alone(DoShrinkDelete(s))
  {
    hide FreeNodes;
    FreeingLeaves(s, s.queue[..Min(s.reaper.due.num, |s.queue|)]);
    assert AgedCalls(s.shrinks, Min(s.reaper.due.num, |s.queue|)) == map[];
  }

  lemma PoolDiesAlone(s: Pool, t: Thread)
    requires Alone(s)
    ensures Alone(DoDestroyPool(s, t))
  {
    hide FreeNodes;
    FreeingLeaves(s, s.queue);
  }
}
