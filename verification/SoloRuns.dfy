/**
 What each operation of the pool amounts to when no other thread interferes, and the proof that it
 is a run of the atomic steps; whatever holds of every interleaving holds of these.
 */
module SoloRuns {
  import opened Wrappers
  import opened Collections
  import opened RecyclerSizing
  import opened RecyclerSteps
  import opened RecyclerInvariant
  import opened RecyclerTheorems

  /** No thread and no shrink is in the middle of anything. */
  ghost predicate Solo(cfg: Config, s: Pool)
    requires cfg.Defined()
  {
    Reachable(cfg, s) && s.pcs == map[] && s.shrinks == map[] && (s.reaper == Off || s.reaper == Sleeping)
  }

  function TallyOf(s: Pool): Tally {
    Tally(|s.queue|, if s.usage < 0 then 0 else s.usage)
  }

  function Copied(s: Pool, src: Handle, into: Handle): Pool
    requires src in s.handles && s.handles[src] in s.counts
  {
    var n := s.handles[src];
    s.(counts := s.counts[n := s.counts[n] + 1], handles := s.handles[into := n])
  }

  /** The last handle returns its node to a live pool, or destroys it. */
  function Released(cfg: Config, s: Pool, src: Handle): Pool
    requires src in s.handles && s.handles[src] in s.counts
  {
    var n := s.handles[src];
    var rest := s.(handles := s.handles - {src});
    if s.counts[n] != 1 then rest.(counts := s.counts[n := s.counts[n] - 1])
    else if s.recycler then
      var starts := !s.shrinking && AsSize(|s.queue| + s.usage) >= AsSize(cfg.shrinkCount);
      rest.(counts := s.counts[n := RECYCLED], queue := s.queue + [n], usage := s.usage - 1,
            shrinking := s.shrinking || starts, reaper := if starts then Sleeping else s.reaper)
    else
      rest.(counts := s.counts - {n}, gone := s.gone + {n}, block := s.block - 1, freed := s.block == 1)
  }

  function AcquiredIdle(s: Pool, into: Handle): Pool
    requires s.queue != []
  {
    var n := s.queue[0];
    s.(queue := s.queue[1..], usage := s.usage + 1, counts := s.counts[n := 1], handles := s.handles[into := n])
  }

  /** The nodes created by a growth other than its result, which is the last but one. */
  function Spare(ids: seq<Node>): seq<Node>
    requires |ids| >= 2
  {
    ids[..|ids| - 2] + [ids[|ids| - 1]]
  }

  function WithNew(counts: map<Node, int>, ids: seq<Node>): map<Node, int> {
    map n | n in counts.Keys + Elements(ids) :: if n in ids then RECYCLED else counts[n]
  }

  function GrownPool(s: Pool, into: Handle, ids: seq<Node>): Pool
    requires |ids| >= 2
  {
    var n := ids[|ids| - 2];
    s.(counts := WithNew(s.counts, ids)[n := 1], handles := s.handles[into := n], queue := s.queue + Spare(ids),
       usage := s.usage + 1, block := s.block + |ids|)
  }

  /** The growth that creates one node throws and drops it. */
  function GrowthFailed(s: Pool, id: Node): Pool {
    s.(counts := WithNew(s.counts, [id]), block := s.block + 1, lost := s.lost + {id})
  }

  /** A call of Shrink. */
  function Freed(cfg: Config, s: Pool): Pool
    requires cfg.Defined()
  {
    var k := Min(Decision(cfg, s), |s.queue|);
    s.(queue := s.queue[k..], counts := s.counts - Elements(s.queue[..k]), gone := s.gone + Elements(s.queue[..k]),
       block := s.block - k)
  }

  /** The background coroutine from its wake-up to its end. */
  function Shrunk(cfg: Config, s: Pool): Pool
    requires cfg.Defined()
  {
    Freed(cfg, s).(shrinking := false, reaper := Off)
  }

  function Destroyed(s: Pool): Pool {
    var block := s.block - |s.queue| - 1;
    s.(queue := [], counts := s.counts - Elements(s.queue), gone := s.gone + Elements(s.queue), recycler := false,
       reaper := Off, block := block, freed := block == 0)
  }

  // ---------------------------------------------------------------------------------------------
  // Each is a run

  /** A run that goes on: it started at a reachable state. */
  ghost predicate Leads(cfg: Config, from: Pool, s: Pool)
    requires cfg.Defined()
  {
    Reachable(cfg, from) && Reaches(cfg, from, s)
  }

  lemma LeadsStart(cfg: Config, s: Pool)
    requires cfg.Defined() && Reachable(cfg, s)
    ensures Leads(cfg, s, s)
  {
    hide Reachable, Reaches;
    Stay(cfg, s);
  }

  lemma LeadsOn(cfg: Config, from: Pool, s: Pool, a: Action)
    requires cfg.Defined() && Leads(cfg, from, s) && Enabled(s, a)
    ensures Leads(cfg, from, Next(cfg, s, a))
  {
    hide Reachable, Reaches, Enabled, Next;
    ReachExtends(cfg, from, s, a);
  }

  lemma LeadsEnds(cfg: Config, from: Pool, s: Pool)
    requires cfg.Defined() && Leads(cfg, from, s)
    ensures Reachable(cfg, s) && Reaches(cfg, from, s)
  {
    hide Reachable, Reaches;
    ReachedIsReachable(cfg, from, s);
  }

  lemma HandleFacts(cfg: Config, s: Pool, src: Handle)
    requires cfg.Defined() && Reachable(cfg, s) && src in s.handles
    ensures s.fault == Clear && s.handles[src] in s.counts && s.counts[s.handles[src]] >= 1 && !s.freed
  {
    hide Reachable;
    var p := ReachableHolds(cfg, s);
    hide QueueInv, HandleInv, HeldCountInv, RestCountInv, CarryCountInv, CarryInv, GrowInv, CopyInv, LastInv, ModeInv;
    hide HistoryInv, CallInv;
    HeldFacts(cfg, s, p, src);
  }

  lemma CopyIsRun(cfg: Config, s: Pool, src: Handle, into: Handle)
    requires cfg.Defined() && Solo(cfg, s) && src in s.handles && into !in s.handles
    ensures s.handles[src] in s.counts && Solo(cfg, Copied(s, src, into)) && Reaches(cfg, s, Copied(s, src, into))
    ensures var n, z := s.handles[src], Copied(s, src, into);
            z == s.(counts := z.counts, handles := z.handles) && z.handles == s.handles[into := n] &&
            z.counts == s.counts[n := s.counts[n] + 1]
  {
    hide Leads, Reachable, Reaches;
    LeadsStart(cfg, s);
    HandleFacts(cfg, s, src);
    var n := s.handles[src];
    var s1 := s.(pcs := map[0 := Copying(src, s.counts[n])]);
    assert Enabled(s, CopyLoad(0, src)) && DoCopyLoad(s, 0, src) == s1;
    LeadsOn(cfg, s, s, CopyLoad(0, src));
    assert Enabled(s1, CopyExchange(0, into, false)) && s1.pcs - {0} == map[];
    assert DoCopyExchange(s1, 0, into, false) == Copied(s, src, into);
    LeadsOn(cfg, s, s1, CopyExchange(0, into, false));
    LeadsEnds(cfg, s, Copied(s, src, into));
  }

  lemma MoveIsRun(cfg: Config, s: Pool, src: Handle, into: Handle)
    requires cfg.Defined() && Solo(cfg, s) && src in s.handles && into !in s.handles
    ensures Solo(cfg, DoMove(s, src, into)) && Reaches(cfg, s, DoMove(s, src, into))
  {
    hide Leads, Reachable, Reaches;
    LeadsStart(cfg, s);
    HandleFacts(cfg, s, src);
    LeadsOn(cfg, s, s, Move(src, into));
    LeadsEnds(cfg, s, DoMove(s, src, into));
  }

  lemma ReleaseIsRun(cfg: Config, s: Pool, src: Handle)
    requires cfg.Defined() && Solo(cfg, s) && src in s.handles
    ensures s.handles[src] in s.counts && Solo(cfg, Released(cfg, s, src)) && Reaches(cfg, s, Released(cfg, s, src))
    ensures s.counts[s.handles[src]] >= 1
    ensures var n, z := s.handles[src], Released(cfg, s, src);
            z.handles == s.handles - {src} && z.recycler == s.recycler && z.lost == s.lost &&
            if s.counts[n] > 1 then
              z.counts == s.counts[n := s.counts[n] - 1] && z == s.(counts := z.counts, handles := z.handles)
            else if s.recycler then
              z.counts == s.counts[n := RECYCLED] && z.queue == s.queue + [n] && z.usage == s.usage - 1 &&
              z.gone == s.gone && z.block == s.block && z.freed == s.freed &&
              (z.shrinking <==> s.shrinking || AsSize(|s.queue| + s.usage) >= AsSize(cfg.shrinkCount)) &&
              z.reaper == if z.shrinking && !s.shrinking then Sleeping else s.reaper
            else
              n !in z.counts && z.counts == s.counts - {n} && z.gone == s.gone + {n} && z.block == s.block - 1 &&
              (z.freed <==> s.block == 1) && z.queue == s.queue && z.usage == s.usage && z.reaper == s.reaper
  {
    hide Leads, Reachable, Reaches, AsSize;
    LeadsStart(cfg, s);
    HandleFacts(cfg, s, src);
    var n := s.handles[src];
    LeadsOn(cfg, s, s, Drop(0, src));
    var s1 := DoDrop(s, 0, src);
    if s.counts[n] == 1 {
      assert s1.counts == s.counts[n := 0] && s1.pcs == map[0 := Dropped(n)];
      if s.recycler {
        ReturnIsRun(cfg, s, s1, n);
        assert s.counts[n := 0][n := RECYCLED] == s.counts[n := RECYCLED];
      } else {
        OrphanIsRun(cfg, s, s1, n);
        assert s.counts[n := 0] - {n} == s.counts - {n};
      }
    }
    LeadsEnds(cfg, s, Released(cfg, s, src));
  }

  /** The releaser finds the pool alive or dead. */
  lemma FindIsRun(cfg: Config, from: Pool, s: Pool, n: Node)
    requires cfg.Defined() && Leads(cfg, from, s) && s.pcs == map[0 := Dropped(n)] && s.fault == Clear
    requires n in s.counts && !s.freed
    ensures Leads(cfg, from, s.(pcs := map[0 := if s.recycler then Returning(n) else Orphan(n)]))
  {
    hide Leads, Fail;
    LeadsOn(cfg, from, s, FindRecycler(0));
    assert s.pcs[0 := Returning(n)] == map[0 := Returning(n)] && s.pcs[0 := Orphan(n)] == map[0 := Orphan(n)];
  }

  lemma ReturnIsRun(cfg: Config, from: Pool, s: Pool, n: Node)
    requires cfg.Defined() && Leads(cfg, from, s) && s.pcs == map[0 := Dropped(n)] && s.fault == Clear && s.recycler
    requires n in s.counts && !s.freed
    ensures var total := |s.queue| + s.usage;
            var starts := !s.shrinking && AsSize(total) >= AsSize(cfg.shrinkCount);
            Leads(cfg, from, s.(counts := s.counts[n := RECYCLED], queue := s.queue + [n], usage := s.usage - 1,
                                shrinking := s.shrinking || starts, reaper := if starts then Sleeping else s.reaper,
                                pcs := map[]))
  {
    hide Leads, AsSize;
    FindIsRun(cfg, from, s, n);
    RecycleIsRun(cfg, from, s.(pcs := map[0 := Returning(n)]), n);
    SubIsRun(cfg, from, s.(counts := s.counts[n := RECYCLED], pcs := map[0 := Recycled(n)]), n);
  }

  lemma RecycleIsRun(cfg: Config, from: Pool, s: Pool, n: Node)
    requires cfg.Defined() && Leads(cfg, from, s) && s.pcs == map[0 := Returning(n)] && s.fault == Clear
    requires n in s.counts
    ensures Leads(cfg, from, s.(counts := s.counts[n := RECYCLED], pcs := map[0 := Recycled(n)]))
  {
    hide Leads, Fail;
    LeadsOn(cfg, from, s, Action.OnRecycle(0));
    assert s.pcs[0 := Recycled(n)] == map[0 := Recycled(n)];
  }

  lemma SubIsRun(cfg: Config, from: Pool, s: Pool, n: Node)
    requires cfg.Defined() && Leads(cfg, from, s) && s.pcs == map[0 := Recycled(n)] && s.fault == Clear
    ensures var total := |s.queue| + s.usage;
            var starts := !s.shrinking && AsSize(total) >= AsSize(cfg.shrinkCount);
            Leads(cfg, from, s.(queue := s.queue + [n], usage := s.usage - 1, shrinking := s.shrinking || starts,
                              reaper := if starts then Sleeping else s.reaper, pcs := map[]))
  {
    hide Leads, AsSize;
    var s1 := s.(usage := s.usage - 1, pcs := map[0 := Uncounted(n)]);
    assert Enabled(s, SubUsage(0)) && DoSubUsage(s, 0) == s1;
    LeadsOn(cfg, from, s, SubUsage(0));
    PushIsRun(cfg, from, s1, n);
  }

  lemma PushIsRun(cfg: Config, from: Pool, s: Pool, n: Node)
    requires cfg.Defined() && Leads(cfg, from, s) && s.pcs == map[0 := Uncounted(n)] && s.fault == Clear
    ensures var total := |s.queue| + 1 + s.usage;
            var starts := !s.shrinking && AsSize(total) >= AsSize(cfg.shrinkCount);
            Leads(cfg, from, s.(queue := s.queue + [n], shrinking := s.shrinking || starts,
                              reaper := if starts then Sleeping else s.reaper, pcs := map[]))
  {
    hide Leads, AsSize;
    assert map[0 := Uncounted(n)] - {0} == map[];
    LeadsOn(cfg, from, s, Push(0));
  }

  lemma OrphanIsRun(cfg: Config, from: Pool, s: Pool, n: Node)
    requires cfg.Defined() && Leads(cfg, from, s) && s.pcs == map[0 := Dropped(n)] && s.fault == Clear && !s.recycler
    requires n in s.counts && !s.freed
    ensures Leads(cfg, from, s.(counts := s.counts - {n}, gone := s.gone + {n}, block := s.block - 1,
                                freed := s.block == 1, pcs := map[]))
  {
    hide Leads;
    FindIsRun(cfg, from, s, n);
    OrphanDies(cfg, from, s.(pcs := map[0 := Orphan(n)]), n);
    if s.block == 1 {
      FreeBlockIsRun(cfg, from,
        s.(counts := s.counts - {n}, gone := s.gone + {n}, block := 0, pcs := map[0 := LastOut]));
    }
  }

  lemma OrphanDies(cfg: Config, from: Pool, s: Pool, n: Node)
    requires cfg.Defined() && Leads(cfg, from, s) && s.pcs == map[0 := Orphan(n)] && s.fault == Clear && !s.recycler
    requires n in s.counts && !s.freed
    ensures Leads(cfg, from, s.(counts := s.counts - {n}, gone := s.gone + {n}, block := s.block - 1,
                                pcs := if s.block == 1 then map[0 := LastOut] else map[]))
  {
    hide Leads, FreeNodes;
    FreeOne(s, n);
    assert map[0 := Orphan(n)] - {0} == map[] && map[0 := Orphan(n)][0 := LastOut] == map[0 := LastOut];
    LeadsOn(cfg, from, s, DestroyNode(0));
  }

  lemma FreeBlockIsRun(cfg: Config, from: Pool, s: Pool)
    requires cfg.Defined() && Leads(cfg, from, s) && s.pcs == map[0 := LastOut] && s.fault == Clear && !s.recycler
    requires !s.freed
    ensures Leads(cfg, from, s.(freed := true, pcs := map[]))
  {
    hide Leads;
    assert map[0 := LastOut] - {0} == map[];
    LeadsOn(cfg, from, s, FreeBlock(0));
  }

  lemma AcquireIdleIsRun(cfg: Config, s: Pool, into: Handle)
    requires cfg.Defined() && Solo(cfg, s) && s.recycler && s.queue != [] && into !in s.handles
    ensures s.queue[0] in s.counts && s.counts[s.queue[0]] == RECYCLED
    ensures Solo(cfg, AcquiredIdle(s, into)) && Reaches(cfg, s, AcquiredIdle(s, into)) && s.usage >= 0
    ensures AcquireTally(TallyOf(s)) == Ok(TallyOf(AcquiredIdle(s, into)))
    ensures var n, z := s.queue[0], AcquiredIdle(s, into);
            z.queue == s.queue[1..] && z.counts == s.counts[n := 1] && z.handles == s.handles[into := n] &&
            z.usage == s.usage + 1 &&
            s == z.(queue := s.queue, counts := s.counts, handles := s.handles, usage := s.usage)
  {
    hide Leads, Reachable, Reaches;
    LeadsStart(cfg, s);
    IdleFacts(cfg, s);
    LeadsOn(cfg, s, s, Action.Acquire(0, into));
    LeadsEnds(cfg, s, AcquiredIdle(s, into));
  }

  lemma IdleFacts(cfg: Config, s: Pool)
    requires cfg.Defined() && Reachable(cfg, s) && s.recycler
    ensures s.fault == Clear && s.usage >= 0 && !s.freed
    ensures s.queue != [] ==> s.queue[0] in s.counts && s.counts[s.queue[0]] == RECYCLED
  {
    hide Reachable;
    var p := ReachableHolds(cfg, s);
    hide QueueInv, HandleInv, HeldCountInv, RestCountInv, CarryCountInv, CarryInv, GrowInv, CopyInv, LastInv, ModeInv;
    hide HistoryInv, CallInv;
    if s.queue != [] {
      QueuedFacts(cfg, s, p, s.queue[0]);
    }
  }

  // ---------------------------------------------------------------------------------------------
  // Growth

  /** The growing thread after `k` of its `|ids|` creations. */
  function MidGrowth(ids: seq<Node>, k: nat): Pc
    requires k <= |ids|
  {
    var want := |ids|;
    if want >= 2 && k >= want - 1 then
      Growing(want, want - k, ids[..want - 2] + ids[want - 1..k], Some(ids[want - 2]))
    else
      Growing(want, want - k, ids[..k], None)
  }

  /** New names for nodes: distinct, never used before, and few enough to fit in memory. */
  ghost predicate Unused(s: Pool, ids: seq<Node>) {
    Distinct(ids) && (forall n | n in ids :: n !in s.counts && n !in s.gone) && |s.counts| + |ids| < SIZE_T
  }

  function Growth(s: Pool, ids: seq<Node>, k: nat): Pool
    requires k <= |ids|
  {
    s.(counts := WithNew(s.counts, ids[..k]), block := s.block + k, pcs := map[0 := MidGrowth(ids, k)])
  }

  lemma MidGrowthStep(ids: seq<Node>, k: nat)
    requires k < |ids|
    ensures Grown(MidGrowth(ids, k), ids[k]) == MidGrowth(ids, k + 1)
  {
    var want := |ids|;
    if want >= 2 && k == want - 1 {
      assert ids[want - 1..k] == [] && ids[want - 1..k + 1] == [ids[k]];
      assert ids[..want - 2] + [] == ids[..want - 2];
    } else if want >= 2 && k == want - 2 {
      assert ids[want - 1..k + 1] == [];
      assert ids[..want - 2] + [] == ids[..want - 2];
    } else {
      assert ids[..k] + [ids[k]] == ids[..k + 1];
    }
  }

  lemma WithNewStep(counts: map<Node, int>, ids: seq<Node>, k: nat)
    requires k < |ids|
    ensures WithNew(counts, ids[..k])[ids[k] := RECYCLED] == WithNew(counts, ids[..k + 1])
  {
    assert ids[..k + 1] == ids[..k] + [ids[k]];
  }

  lemma {:induction false} WithNewSize(counts: map<Node, int>, ids: seq<Node>, k: nat)
    requires k <= |ids|
    ensures |WithNew(counts, ids[..k])| <= |counts| + k
    decreases k
  {
    hide WithNew;
    if k == 0 {
      WithNewNone(counts, ids);
    } else {
      WithNewSize(counts, ids, k - 1);
      WithNewStep(counts, ids, k - 1);
      PutBound(WithNew(counts, ids[..k - 1]), ids[k - 1]);
    }
  }

  lemma WithNewNone(counts: map<Node, int>, ids: seq<Node>)
    ensures WithNew(counts, ids[..0]) == counts
  {
  }

  lemma WithNewOne(counts: map<Node, int>, n: Node)
    ensures WithNew(counts, [n]) == counts[n := RECYCLED]
  {
  }

  lemma PutBound(counts: map<Node, int>, n: Node)
    ensures |counts[n := RECYCLED]| <= |counts| + 1
  {
    assert counts[n := RECYCLED].Keys == counts.Keys + {n};
    assert |counts[n := RECYCLED].Keys| == |counts[n := RECYCLED]|;
  }

  lemma CreateStep(cfg: Config, s: Pool, ids: seq<Node>, k: nat)
    requires cfg.Defined() && s.fault == Clear && !s.freed && Unused(s, ids) && k < |ids|
    ensures Enabled(Growth(s, ids, k), CreateNode(0, ids[k]))
    ensures DoCreateNode(Growth(s, ids, k), 0, ids[k]) == Growth(s, ids, k + 1)
  {
    hide WithNew, MidGrowth, Unused;
    MidGrowthStep(ids, k);
    MidGrowthLeft(ids, k);
    WithNewStep(s.counts, ids, k);
    NewIsUnused(s, ids, k);
    assert map[0 := MidGrowth(ids, k)][0 := MidGrowth(ids, k + 1)] == map[0 := MidGrowth(ids, k + 1)];
  }

  lemma MidGrowthLeft(ids: seq<Node>, k: nat)
    requires k < |ids|
    ensures MidGrowth(ids, k).Growing? && MidGrowth(ids, k).left == |ids| - k
  {
  }

  lemma NewIsUnused(s: Pool, ids: seq<Node>, k: nat)
    requires Unused(s, ids) && k < |ids|
    ensures ids[k] !in WithNew(s.counts, ids[..k]) && ids[k] !in s.gone
    ensures |WithNew(s.counts, ids[..k])| + 1 < SIZE_T
  {
    WithNewSize(s.counts, ids, k);
    assert ids[k] in ids && ids[k] !in ids[..k];
  }

  lemma {:induction false} CreateManyIsRun(cfg: Config, from: Pool, s: Pool, ids: seq<Node>, k: nat)
    requires cfg.Defined() && s.fault == Clear && !s.freed && Unused(s, ids) && k <= |ids|
    requires Leads(cfg, from, Growth(s, ids, 0))
    ensures Leads(cfg, from, Growth(s, ids, k))
    decreases k
  {
    hide Leads, Enabled, Growth, Next;
    if k > 0 {
      CreateManyIsRun(cfg, from, s, ids, k - 1);
      CreateStep(cfg, s, ids, k - 1);
      NextCreates(cfg, Growth(s, ids, k - 1), ids[k - 1]);
      LeadsOn(cfg, from, Growth(s, ids, k - 1), CreateNode(0, ids[k - 1]));
    }
  }

  lemma NextCreates(cfg: Config, s: Pool, n: Node)
    requires cfg.Defined() && Enabled(s, CreateNode(0, n))
    ensures Next(cfg, s, CreateNode(0, n)) == DoCreateNode(s, 0, n)
  {
  }

  /** The miss and the read of mUsage. */
  lemma MissIsRun(cfg: Config, from: Pool, s: Pool, ids: seq<Node>)
    requires cfg.Defined() && Leads(cfg, from, s) && s.pcs == map[] && s.recycler && s.queue == [] && s.fault == Clear
    requires s.usage == |ids| > 0
    ensures Leads(cfg, from, Growth(s, ids, 0))
  {
    hide Leads;
    EmptyIsMissed(cfg, from, s);
    UsageIsRead(cfg, from, s.(pcs := map[0 := Missed]));
    assert WithNew(s.counts, ids[..0]) == s.counts;
    assert MidGrowth(ids, 0) == Growing(s.usage, s.usage, [], None);
  }

  lemma EmptyIsMissed(cfg: Config, from: Pool, s: Pool)
    requires cfg.Defined() && Leads(cfg, from, s) && s.pcs == map[] && s.recycler && s.queue == [] && s.fault == Clear
    ensures Leads(cfg, from, s.(pcs := map[0 := Missed]))
  {
    hide Leads, Fail;
    NewHandle(s.handles.Keys);
    var into: Handle :| into !in s.handles.Keys;
    LeadsOn(cfg, from, s, Action.Acquire(0, into));
  }

  lemma UsageIsRead(cfg: Config, from: Pool, s: Pool)
    requires cfg.Defined() && Leads(cfg, from, s) && s.pcs == map[0 := Missed] && s.usage > 0 && s.fault == Clear
    ensures Leads(cfg, from, s.(pcs := map[0 := Growing(s.usage, s.usage, [], None)]))
  {
    hide Leads, Rest;
    LeadsOn(cfg, from, s, LoadUsage(0));
    var pc := Growing(s.usage, s.usage, [], None);
    assert s.pcs[0 := pc] == map[0 := pc];
  }

  lemma {:induction false} NewHandle(hs: set<Handle>)
    ensures exists h: Handle :: h !in hs
  {
    var bound := Above(hs);
    assert bound !in hs;
  }

  lemma {:induction false} Above(hs: set<Handle>) returns (bound: Handle)
    ensures forall h | h in hs :: h < bound
    decreases hs
  {
    if hs == {} {
      bound := 0;
    } else {
      var h :| h in hs;
      var below := Above(hs - {h});
      bound := if below <= h then h + 1 else below;
      assert hs == hs - {h} + {h};
    }
  }

  lemma GrownIsRun(cfg: Config, s: Pool, into: Handle, ids: seq<Node>)
    requires cfg.Defined() && Solo(cfg, s) && s.recycler && s.queue == [] && into !in s.handles
    requires Unused(s, ids) && s.usage == |ids| >= 2
    ensures Solo(cfg, GrownPool(s, into, ids)) && Reaches(cfg, s, GrownPool(s, into, ids))
    ensures AcquireTally(TallyOf(s)) == Ok(TallyOf(GrownPool(s, into, ids)))
    ensures |GrownPool(s, into, ids).counts| == |s.counts| + |ids|
    ensures var n, z := ids[|ids| - 2], GrownPool(s, into, ids);
            z.counts.Keys == s.counts.Keys + Elements(ids) && z.handles == s.handles[into := n] &&
            (forall e | e in s.counts :: z.counts[e] == s.counts[e]) &&
            (forall e | e in ids :: z.counts[e] == if e == n then 1 else RECYCLED) &&
            Distinct(z.queue) && Elements(z.queue) == Elements(ids) - {n} && z.usage == s.usage + 1 &&
            z.block == s.block + |ids| && s == z.(counts := s.counts, handles := s.handles, queue := s.queue,
                                                  usage := s.usage, block := s.block)
  {
    hide Leads, Solo, Reaches, Unused, Growth, GrownPool, TallyOf, AcquireTally, Elements, Distinct;
    GrownSays(s, into, ids);
    GrownTally(s, into, ids);
    GrowthIsRun(cfg, s, into, ids);
    GrownSize(s, into, ids);
  }

  lemma GrownTally(s: Pool, into: Handle, ids: seq<Node>)
    requires s.queue == [] && s.usage == |ids| >= 2
    ensures AcquireTally(TallyOf(s)) == Ok(TallyOf(GrownPool(s, into, ids)))
  {
    hide WithNew;
  }

  lemma GrowthIsRun(cfg: Config, s: Pool, into: Handle, ids: seq<Node>)
    requires cfg.Defined() && Solo(cfg, s) && s.recycler && s.queue == [] && into !in s.handles
    requires Unused(s, ids) && s.usage == |ids| >= 2
    ensures Solo(cfg, GrownPool(s, into, ids)) && Reaches(cfg, s, GrownPool(s, into, ids))
  {
    hide Leads, Reachable, Reaches, WithNew, Unused, Growth;
    LeadsStart(cfg, s);
    IdleFacts(cfg, s);
    MissIsRun(cfg, s, s, ids);
    CreateManyIsRun(cfg, s, s, ids, |ids|);
    HandOutIsRun(cfg, s, s, into, ids);
    LeadsEnds(cfg, s, GrownPool(s, into, ids));
  }

  /** What a growth leaves where. */
  lemma GrownSays(s: Pool, into: Handle, ids: seq<Node>)
    requires Unused(s, ids) && |ids| >= 2 && s.queue == []
    ensures var n, z := ids[|ids| - 2], GrownPool(s, into, ids);
            z.counts.Keys == s.counts.Keys + Elements(ids) &&
            (forall e | e in s.counts :: z.counts[e] == s.counts[e]) &&
            (forall e | e in ids :: z.counts[e] == if e == n then 1 else RECYCLED) &&
            z.handles == s.handles[into := n] && z.usage == s.usage + 1 && z.block == s.block + |ids| &&
            Distinct(z.queue) && Elements(z.queue) == Elements(ids) - {n} && s == z.(counts := s.counts,
              handles := s.handles, queue := s.queue, usage := s.usage, block := s.block)
  {
    hide WithNew, Spare;
    var n := ids[|ids| - 2];
    assert n in ids;
    NewCounts(s, ids, n);
    SpareIsTheRest(ids);
    assert [] + Spare(ids) == Spare(ids);
  }

  lemma NewCounts(s: Pool, ids: seq<Node>, n: Node)
    requires Unused(s, ids) && n in ids
    ensures var counts := WithNew(s.counts, ids)[n := 1];
            counts.Keys == s.counts.Keys + Elements(ids) && (forall e | e in s.counts :: counts[e] == s.counts[e]) &&
            (forall e | e in ids :: counts[e] == if e == n then 1 else RECYCLED)
  {
  }

  lemma SpareIsTheRest(ids: seq<Node>)
    requires |ids| >= 2 && Distinct(ids)
    ensures Distinct(Spare(ids)) && Elements(Spare(ids)) == Elements(ids) - {ids[|ids| - 2]}
  {
    var spare, n := Spare(ids), ids[|ids| - 2];
    assert ids == ids[..|ids| - 2] + [n] + [ids[|ids| - 1]];
    assert forall i | 0 <= i < |spare| :: spare[i] == if i < |ids| - 2 then ids[i] else ids[i + 1];
    assert forall e | e in spare :: e in ids && e != n;
  }

  /** A growth at usage N adds exactly N live nodes. */
  lemma GrownSize(s: Pool, into: Handle, ids: seq<Node>)
    requires Unused(s, ids) && |ids| >= 2
    ensures |GrownPool(s, into, ids).counts| == |s.counts| + |ids|
  {
    hide WithNew;
    DistinctSize(ids);
    var n := ids[|ids| - 2];
    assert n in ids;
    NewKeys(s, ids);
    var counts := WithNew(s.counts, ids);
    assert counts[n := 1].Keys == counts.Keys;
    SizeOfKeys(counts[n := 1]);
    SizeOfKeys(s.counts);
  }

  lemma SizeOfKeys(counts: map<Node, int>)
    ensures |counts| == |counts.Keys|
  {
  }

  lemma NewKeys(s: Pool, ids: seq<Node>)
    requires Unused(s, ids)
    ensures WithNew(s.counts, ids).Keys == s.counts.Keys + Elements(ids) && s.counts.Keys !! Elements(ids)
    ensures forall n | n in ids :: n in WithNew(s.counts, ids)
  {
  }

  lemma HandOutIsRun(cfg: Config, from: Pool, s: Pool, into: Handle, ids: seq<Node>)
    requires cfg.Defined() && s.recycler && into !in s.handles && |ids| >= 2 && s.pcs == map[] && s.fault == Clear
    requires Leads(cfg, from, Growth(s, ids, |ids|))
    ensures Leads(cfg, from, GrownPool(s, into, ids))
  {
    hide Leads, WithNew;
    var n := ids[|ids| - 2];
    var counts := WithNew(s.counts, ids);
    assert ids[..|ids|] == ids && ids[|ids| - 1..|ids|] == [ids[|ids| - 1]];
    var s0 := Growth(s, ids, |ids|);
    assert s0.pcs == map[0 := Growing(|ids|, 0, Spare(ids), Some(n))];
    var s1 := s0.(queue := s.queue + Spare(ids), pcs := map[0 := Published(n)]);
    assert Enabled(s0, Publish(0)) && DoPublish(s0, 0) == s1;
    LeadsOn(cfg, from, s0, Publish(0));
    AddUsageIsRun(cfg, from, s1, n);
    HandOutLast(cfg, from, s1.(usage := s.usage + 1, pcs := map[0 := Counted(n)]), into, n);
  }

  lemma AddUsageIsRun(cfg: Config, from: Pool, s: Pool, n: Node)
    requires cfg.Defined() && Leads(cfg, from, s) && s.pcs == map[0 := Published(n)] && s.fault == Clear
    ensures Leads(cfg, from, s.(usage := s.usage + 1, pcs := map[0 := Counted(n)]))
  {
    hide Leads;
    var s2 := s.(usage := s.usage + 1, pcs := map[0 := Counted(n)]);
    assert Enabled(s, AddUsage(0)) && DoAddUsage(s, 0) == s2;
    LeadsOn(cfg, from, s, AddUsage(0));
  }

  lemma HandOutLast(cfg: Config, from: Pool, s: Pool, into: Handle, n: Node)
    requires cfg.Defined() && Leads(cfg, from, s) && s.pcs == map[0 := Counted(n)] && into !in s.handles
    requires s.fault == Clear
    ensures n in s.counts
    ensures Leads(cfg, from, s.(counts := s.counts[n := 1], handles := s.handles[into := n], pcs := map[]))
  {
    hide Leads, Reachable, Reaches, Inv;
    LeadsEnds(cfg, from, s);
    var p := ReachableHolds(cfg, s);
    CarriedFacts(cfg, s, p, 0, n);
    assert map[0 := Counted(n)] - {0} == map[];
    LeadsOn(cfg, from, s, HandOut(0, into));
  }

  lemma GrowthFailedIsRun(cfg: Config, s: Pool, id: Node)
    requires cfg.Defined() && Solo(cfg, s) && s.recycler && s.queue == [] && Unused(s, [id]) && s.usage == 1
    ensures Solo(cfg, GrowthFailed(s, id)) && Reaches(cfg, s, GrowthFailed(s, id))
    ensures AcquireTally(TallyOf(s)) == Err(CreateFailed) && TallyOf(GrowthFailed(s, id)) == TallyOf(s)
    ensures var z := GrowthFailed(s, id);
            z.counts == s.counts[id := RECYCLED] && z.block == s.block + 1 && z.lost == s.lost + {id} &&
            s == z.(counts := s.counts, block := s.block, lost := s.lost)
  {
    hide Leads, Reachable, Reaches, WithNew;
    LeadsStart(cfg, s);
    IdleFacts(cfg, s);
    WithNewOne(s.counts, id);
    var ids := [id];
    MissIsRun(cfg, s, s, ids);
    CreateManyIsRun(cfg, s, s, ids, 1);
    assert ids[..1] == ids;
    var s1 := Growth(s, ids, 1);
    assert s1.pcs == map[0 := Growing(1, 0, ids, None)] && s1.pcs - {0} == map[];
    assert Elements(ids) == {id};
    LeadsOn(cfg, s, s1, Publish(0));
    LeadsEnds(cfg, s, GrowthFailed(s, id));
  }

  // ---------------------------------------------------------------------------------------------
  // Shrinking and destruction

  lemma ShrunkIsRun(cfg: Config, s: Pool)
    requires cfg.Defined() && Solo(cfg, s) && s.recycler && s.reaper == Sleeping
    ensures Solo(cfg, Shrunk(cfg, s)) && Reaches(cfg, s, Shrunk(cfg, s))
    ensures TallyOf(Shrunk(cfg, s)) == ShrinkTally(cfg, TallyOf(s))
    ensures var k, z := Min(Decision(cfg, s), |s.queue|), Shrunk(cfg, s);
            z.queue == s.queue[k..] && z.counts == s.counts - Elements(s.queue[..k]) &&
            z.gone == s.gone + Elements(s.queue[..k]) && z.block == s.block - k && !z.shrinking && z.reaper == Off &&
            s == z.(queue := s.queue, counts := s.counts, gone := s.gone, block := s.block, shrinking := s.shrinking,
                    reaper := s.reaper)
  {
    hide Leads, Reachable, Reaches, ShrinkNum, Elements;
    LeadsStart(cfg, s);
    IdleFacts(cfg, s);
    LeadsOn(cfg, s, s, ShrinkSnapshot);
    var s1 := DoShrinkSnapshot(cfg, s);
    var k := Min(Decision(cfg, s), |s.queue|);
    if s1.reaper.Doomed? {
      DeleteIsRun(cfg, s, s1, k);
    } else {
      NoneFreed(s);
    }
    FinishIsRun(cfg, s, Freed(cfg, s).(reaper := Finished));
    LeadsEnds(cfg, s, Shrunk(cfg, s));
  }

  lemma FreedIsRun(cfg: Config, s: Pool)
    requires cfg.Defined() && Solo(cfg, s) && s.recycler
    ensures Solo(cfg, Freed(cfg, s)) && Reaches(cfg, s, Freed(cfg, s))
    ensures TallyOf(Freed(cfg, s)) == ShrinkTally(cfg, TallyOf(s))
    ensures var k, z := Min(Decision(cfg, s), |s.queue|), Freed(cfg, s);
            z.queue == s.queue[k..] && z.counts == s.counts - Elements(s.queue[..k]) &&
            z.gone == s.gone + Elements(s.queue[..k]) && z.block == s.block - k &&
            s == z.(queue := s.queue, counts := s.counts, gone := s.gone, block := s.block)
  {
    hide Leads, Reachable, Reaches, ShrinkNum, Elements;
    LeadsStart(cfg, s);
    IdleFacts(cfg, s);
    LeadsOn(cfg, s, s, CallSnapshot(0));
    var num := Decision(cfg, s);
    if num == 0 {
      NoneFreed(s);
    } else {
      CallDeleteIsRun(cfg, s, s.(shrinks := map[0 := Pending(num, 0)]), num);
    }
    LeadsEnds(cfg, s, Freed(cfg, s));
  }

  lemma CallDeleteIsRun(cfg: Config, from: Pool, s: Pool, num: nat)
    requires cfg.Defined() && Leads(cfg, from, s) && s.recycler && s.fault == Clear
    requires (s.reaper == Off || s.reaper == Sleeping)
    requires s.shrinks == map[0 := Pending(num, 0)]
    ensures var k := Min(num, |s.queue|);
            Leads(cfg, from, s.(queue := s.queue[k..], counts := s.counts - Elements(s.queue[..k]),
                              gone := s.gone + Elements(s.queue[..k]), block := s.block - k, shrinks := map[]))
  {
    hide Leads, Reachable, Reaches, Inv, FreeNodes, Elements;
    var k := Min(num, |s.queue|);
    LeadsEnds(cfg, from, s);
    PrefixFrees(cfg, s, k);
    assert AgedCalls(s.shrinks - {0}, k) == map[];
    LeadsOn(cfg, from, s, CallDelete(0));
  }

  lemma FinishIsRun(cfg: Config, from: Pool, s: Pool)
    requires cfg.Defined() && Leads(cfg, from, s) && s.recycler && s.reaper == Finished && s.fault == Clear
    ensures Leads(cfg, from, s.(shrinking := false, reaper := Off))
  {
    hide Leads;
    LeadsOn(cfg, from, s, ShrinkDone);
  }

  lemma NoneFreed(s: Pool)
    ensures s.queue[0..] == s.queue && s.counts - Elements(s.queue[..0]) == s.counts &&
            s.gone + Elements(s.queue[..0]) == s.gone
  {
  }

  lemma DeleteIsRun(cfg: Config, from: Pool, s: Pool, k: nat)
    requires cfg.Defined() && Leads(cfg, from, s) && s.recycler && s.reaper.Doomed? && s.fault == Clear
    requires s.shrinks == map[]
    requires k == Min(s.reaper.due.num, |s.queue|)
    ensures Leads(cfg, from, s.(queue := s.queue[k..], counts := s.counts - Elements(s.queue[..k]),
                              gone := s.gone + Elements(s.queue[..k]), block := s.block - k, reaper := Finished))
  {
    hide Leads, Reachable, Reaches, Inv, FreeNodes, Elements;
    LeadsEnds(cfg, from, s);
    PrefixFrees(cfg, s, k);
    assert AgedCalls(s.shrinks, k) == map[];
    LeadsOn(cfg, from, s, ShrinkDelete);
  }

  lemma PrefixFrees(cfg: Config, s: Pool, k: nat)
    requires cfg.Defined() && Reachable(cfg, s) && s.recycler && k <= |s.queue|
    ensures FreeNodes(s, s.queue[..k]) ==
            s.(counts := s.counts - Elements(s.queue[..k]), gone := s.gone + Elements(s.queue[..k]),
              block := s.block - k)
  {
    hide Reachable, Inv, FreeNodes, Elements;
    var p := ReachableHolds(cfg, s);
    FreeQueuedKeeps(cfg, s, p, k);
  }

  lemma DrainIsRun(cfg: Config, from: Pool, s: Pool)
    requires cfg.Defined() && Leads(cfg, from, s) && s.fault == Clear && s.pcs == map[] && s.recycler && !s.freed
    requires (s.reaper == Off || s.reaper == Sleeping) && s.shrinks == map[]
    ensures Leads(cfg, from,
              Destroyed(s).(freed := false, pcs := if Destroyed(s).freed then map[0 := LastOut] else map[]))
  {
    hide Leads, Reachable, Reaches, FreeNodes, Elements;
    LeadsEnds(cfg, from, s);
    QueueFrees(cfg, s);
    var s1 := DoDestroyPool(s, 0);
    assert s.pcs[0 := LastOut] == map[0 := LastOut];
    assert Enabled(s, DestroyPool(0));
    LeadsOn(cfg, from, s, DestroyPool(0));
  }

  lemma QueueFrees(cfg: Config, s: Pool)
    requires cfg.Defined() && Reachable(cfg, s) && s.recycler
    ensures FreeNodes(s, s.queue) ==
            s.(counts := s.counts - Elements(s.queue), gone := s.gone + Elements(s.queue), block := s.block - |s.queue|)
  {
    hide Reachable, FreeNodes, Elements;
    PrefixFrees(cfg, s, |s.queue|);
    WholeQueue(s.queue);
  }

  lemma WholeQueue(queue: seq<Node>)
    ensures queue[..|queue|] == queue
  {
  }

  lemma DestroyedIsRun(cfg: Config, s: Pool)
    requires cfg.Defined() && Solo(cfg, s) && s.recycler
    ensures Solo(cfg, Destroyed(s)) && Reaches(cfg, s, Destroyed(s))
    ensures var z := Destroyed(s);
            z.queue == [] && z.counts == s.counts - Elements(s.queue) && z.gone == s.gone + Elements(s.queue) &&
            !z.recycler && z.reaper == Off && z.block == s.block - |s.queue| - 1 && (z.freed <==> z.block == 0) &&
            z.handles == s.handles && z.usage == s.usage && z.lost == s.lost && z.shrinking == s.shrinking
  {
    hide Leads, Reachable, Reaches, Elements;
    LeadsStart(cfg, s);
    IdleFacts(cfg, s);
    DrainIsRun(cfg, s, s);
    if Destroyed(s).freed {
      FreeBlockIsRun(cfg, s, Destroyed(s).(freed := false, pcs := map[0 := LastOut]));
    }
    LeadsEnds(cfg, s, Destroyed(s));
  }
}
