/**
 The recycler as a sequential class.  Its fields are those of the pool, its nodes' counts, its
 control block and the handles; node and handle identities are numbers.

 Every method is proved to be a run of the atomic steps, so the theorems about every interleaving
 hold between any two calls.
 */
module RecyclerClass {
  import opened Wrappers
  import opened Collections
  import opened RecyclerSizing
  import opened RecyclerSteps
  import opened RecyclerInvariant
  import opened RecyclerTheorems
  import opened SoloRuns

  class Recycler {
    const cfg: Config
    var counts: map<Node, int>
    var handles: map<Handle, Node>
    var queue: seq<Node>
    var usage: int
    var shrinking: bool
    var reaper: Reaper
    var block: int
    var alive: bool
    var freed: bool
    /** Where the allocator puts the next node. */
    var nextNode: nat
    ghost var gone: set<Node>
    ghost var lost: set<Node>

    ghost function View(): Pool
      reads this
    {
      Pool(counts, handles, queue, usage, shrinking, reaper, block, alive, freed, gone, lost, map[], map[], Clear)
    }

    ghost predicate Valid()
      reads this
    {
      cfg.Defined() && Solo(cfg, View()) && NamesBelow(counts, gone, nextNode)
    }

    /** Initial: creates `capacity` idle nodes. */
    constructor (cfg: Config, capacity: nat)
      requires cfg.Defined() && capacity < SIZE_T
      ensures Valid() && this.cfg == cfg && View() == Start(capacity)
      ensures |queue| == capacity && Distinct(queue) && counts.Keys == Elements(queue) && handles == map[] && alive
      ensures (forall n | n in queue :: counts[n] == RECYCLED) && usage == 0 && block == capacity + 1 && !freed
    {
      hide IdleCounts, Solo, NamesBelow;
      this.cfg := cfg;
      counts, handles, queue := map[], map[], [];
      shrinking, reaper, alive, freed := false, Off, true, false;
      block, nextNode, gone, lost := 1, 0, {}, {};
      usage := -1;
      new;
      NoIdleCounts();
      for count := 0 to capacity
        invariant queue == seq(count, i => i) && counts == IdleCounts(queue)
        invariant block == count + 1 && nextNode == count
        invariant handles == map[] && !shrinking && reaper == Off && alive && !freed && gone == {} && lost == {}
      {
        IdlePush(queue, nextNode);
        var e := CreateNode();
        queue := queue + [e];
      }
      usage := 0;
      IdleCountsSay(queue);
      StartIsSolo(cfg, capacity);
      StartNames(capacity);
    }

    /** Constructs a node, whose constructor raises the control block's count. */
    method CreateNode() returns (e: Node)
      modifies this`counts, this`block, this`nextNode
      ensures e == old(nextNode) && nextNode == e + 1
      ensures counts == old(counts)[e := RECYCLED] && block == old(block) + 1
    {
      e := nextNode;
      nextNode := nextNode + 1;
      counts := counts[e := RECYCLED];
      block := block + 1;
    }

    /** The copy and the cast of a handle. */
    method Copy(src: Handle, into: Handle)
      requires Valid() && src in handles && into !in handles
      modifies this
      ensures Valid() && Reaches(cfg, old(View()), View())
      ensures old(handles)[src] in old(counts) && View() == Copied(old(View()), src, into)
      ensures var n := old(handles)[src];
              counts == old(counts)[n := old(counts)[n] + 1] && handles == old(handles)[into := n]
      ensures unchanged(`queue, `usage, `shrinking, `reaper, `block, `alive, `freed, `gone, `lost)
    {
      hide Solo, Reaches;
      CopyIsRun(cfg, View(), src, into);
      var n := handles[src];
      counts := counts[n := counts[n] + 1];
      handles := handles[into := n];
    }

    method Move(src: Handle, into: Handle)
      requires Valid() && src in handles && into !in handles
      modifies this
      ensures Valid() && Reaches(cfg, old(View()), View()) && View() == DoMove(old(View()), src, into)
      ensures handles == (old(handles) - {src})[into := old(handles)[src]]
      ensures unchanged(`counts, `queue, `usage, `shrinking, `reaper, `block, `alive, `freed, `gone, `lost)
    {
      hide Solo, Reaches;
      MoveIsRun(cfg, View(), src, into);
      var n := handles[src];
      handles := handles - {src};
      handles := handles[into := n];
    }

    /** The destructor of a handle. */
    method Release(src: Handle)
      requires Valid() && src in handles
      modifies this
      ensures Valid() && Reaches(cfg, old(View()), View())
      ensures old(handles)[src] in old(counts) && View() == Released(cfg, old(View()), src)
      ensures handles == old(handles) - {src} && unchanged(`alive, `lost)
      ensures var n := old(handles)[src];
              var count := old(counts)[n];
              count >= 1 &&
              if count > 1 then
                counts == old(counts)[n := count - 1] &&
                unchanged(`queue, `usage, `shrinking, `reaper, `block, `freed, `gone)
              else if old(alive) then
                counts == old(counts)[n := RECYCLED] && queue == old(queue) + [n] && usage == old(usage) - 1 &&
                (shrinking <==> old(shrinking) || AsSize(|old(queue)| + old(usage)) >= AsSize(cfg.shrinkCount)) &&
                reaper == (if shrinking && !old(shrinking) then Sleeping else old(reaper)) &&
                unchanged(`block, `freed, `gone)
              else
                n !in counts && counts == old(counts) - {n} && gone == old(gone) + {n} && block == old(block) - 1 &&
                (freed <==> old(block) == 1) && unchanged(`queue, `usage, `shrinking, `reaper)
    {
      hide Solo, Reaches, AsSize;
      ReleaseIsRun(cfg, View(), src);
      LastIsLive(cfg, View(), src);
      var n := handles[src];
      var last := counts[n] == 1;
      counts := counts[n := counts[n] - 1];
      handles := handles - {src};
      if last {
        if alive {
          Recycle(n);
        } else {
          DestroyOrphan(n);
        }
      }
      assert View() == Released(cfg, old(View()), src);
    }

    /** Returns a node to the queue and decides whether to start a background shrink. */
    method Recycle(n: Node)
      requires cfg.Defined() && n in counts
      modifies this
      ensures var starts := !old(shrinking) && AsSize(|old(queue)| + old(usage)) >= AsSize(cfg.shrinkCount);
              View() == old(View()).(counts := old(counts)[n := RECYCLED], queue := old(queue) + [n],
                                     usage := old(usage) - 1, shrinking := old(shrinking) || starts,
                                     reaper := if starts then Sleeping else old(reaper))
      ensures nextNode == old(nextNode)
    {
      counts := counts[n := RECYCLED];
      usage := usage - 1;
      queue := queue + [n];
      if shrinking {
        return;
      }
      if AsSize(|queue| + usage) < AsSize(cfg.shrinkCount) {
        return;
      }
      shrinking := true;
      reaper := Sleeping;
    }

    /** Destroys a node whose pool is gone; its destructor decrements the control block's count. */
    method DestroyOrphan(n: Node)
      requires n in counts && !alive && !freed
      modifies this
      ensures View() == old(View()).(counts := old(counts) - {n}, gone := old(gone) + {n}, block := old(block) - 1,
                                     freed := old(block) == 1)
      ensures nextNode == old(nextNode)
    {
      counts := counts - {n};
      gone := gone + {n};
      block := block - 1;
      if block == 0 && !alive {
        freed := true;
      }
    }

    /** AcquireNode, and the handle made of its result. */
    method Acquire(into: Handle) returns (r: Result<Node, Error>)
      requires Valid() && alive && into !in handles && |counts| + usage < SIZE_T
      modifies this
      ensures Valid() && Reaches(cfg, old(View()), View())
      ensures match AcquireTally(TallyOf(old(View())))
              case Ok(t) =>
                r.Ok? && TallyOf(View()) == t && handles == old(handles)[into := r.value] &&
                r.value in counts && counts[r.value] == 1 && r.value !in old(handles).Values
              case Err(e) => r == Err(e) && TallyOf(View()) == TallyOf(old(View())) && handles == old(handles)
      ensures old(queue) != [] ==>
                View() == AcquiredIdle(old(View()), into) && r == Ok(old(queue)[0]) && queue == old(queue)[1..] &&
                counts == old(counts)[old(queue)[0] := 1] && usage == old(usage) + 1 && unchanged(`block, `gone, `lost)
      ensures old(queue) == [] ==>
                (r.Ok? <==> old(usage) >= 2) && (r == Err(ExpandNumZero) <==> old(usage) <= 0)
      ensures old(queue) == [] && r.Ok? ==>
                r.value !in old(counts) && Distinct(queue) && |queue| == old(usage) - 1 && usage == old(usage) + 1 &&
                counts.Keys == old(counts).Keys + Elements(queue) + {r.value} && block == old(block) + old(usage) &&
                (forall n | n in queue :: n !in old(counts) && n != r.value && counts[n] == RECYCLED) &&
                (forall n | n in old(counts) :: counts[n] == old(counts)[n]) && unchanged(`gone, `lost)
      ensures r == Err(ExpandNumZero) ==> View() == old(View())
      ensures r == Err(CreateFailed) ==>
                old(nextNode) !in old(counts) && counts == old(counts)[old(nextNode) := RECYCLED] &&
                lost == old(lost) + {old(nextNode)} && block == old(block) + 1 && unchanged(`queue, `usage, `gone)
      ensures unchanged(`shrinking, `reaper, `alive, `freed)
      ensures old(queue) == [] && r.Ok? ==>
                exists ids: seq<Node> :: |ids| == old(usage) && Unused(old(View()), ids) &&
                                         View() == GrownPool(old(View()), into, ids)
    {
      hide Solo, NamesBelow, Unused, GrownPool, Reaches;
      ghost var start := View();
      if queue != [] {
        AcquireIdleIsRun(cfg, start, into);
        IdleIsUnreferenced(cfg, start, queue[0]);
        NamesPut(counts, gone, nextNode, queue[0], 1);
        var n := queue[0];
        queue := queue[1..];
        usage := usage + 1;
        counts := counts[n := 1];
        handles := handles[into := n];
        return Ok(n);
      }
      UsageIsNatural(cfg, start);
      var num := usage;
      if num <= 0 {
        Stay(cfg, start);
        return Err(ExpandNumZero);
      }
      r := Grow(into, num);
    }

    /** The part of AcquireNode that creates nodes. */
    method Grow(into: Handle, num: nat) returns (r: Result<Node, Error>)
      requires Valid() && alive && queue == [] && into !in handles && |counts| + usage < SIZE_T
      requires num == usage > 0
      modifies this
      ensures Valid() && Reaches(cfg, old(View()), View()) && (r.Ok? <==> num >= 2)
      ensures r.Ok? ==>
                exists ids: seq<Node> ::
                  |ids| == num && Unused(old(View()), ids) && View() == GrownPool(old(View()), into, ids)
      ensures r.Ok? ==>
                AcquireTally(TallyOf(old(View()))) == Ok(TallyOf(View())) && handles == old(handles)[into := r.value] &&
                r.value in counts && counts[r.value] == 1 && r.value !in old(handles).Values
      ensures r.Err? ==> r == Err(CreateFailed) && handles == old(handles) &&
                         AcquireTally(TallyOf(old(View()))) == Err(CreateFailed) &&
                         TallyOf(View()) == TallyOf(old(View()))
      ensures r.Ok? ==>
                r.value !in old(counts) && Distinct(queue) && |queue| == num - 1 && usage == num + 1 &&
                counts.Keys == old(counts).Keys + Elements(queue) + {r.value} && block == old(block) + num &&
                (forall n | n in queue :: n !in old(counts) && n != r.value && counts[n] == RECYCLED) &&
                (forall n | n in old(counts) :: counts[n] == old(counts)[n]) && unchanged(`gone, `lost)
      ensures r.Err? ==>
                old(nextNode) !in old(counts) && counts == old(counts)[old(nextNode) := RECYCLED] &&
                lost == old(lost) + {old(nextNode)} && block == old(block) + 1 && unchanged(`queue, `usage, `gone)
      ensures unchanged(`shrinking, `reaper, `alive, `freed)
    {
      hide Solo, NamesBelow, WithNew, Unused, AcquireTally, TallyOf, Reaches, GrownPool, Spare, Distinct, Elements;
      ghost var start, base := View(), nextNode;
      ghost var ids := seq(num, i => base + i);
      NamesAreUnused(start, base, ids);
      NamesGrow(start.counts, start.gone, ids, base);
      var spare, result := CreateNodes(num, ids);
      if result.None? {
        GiveUp(spare, start, ids);
        return Err(CreateFailed);
      }
      HandOver(into, spare, result.value, start, ids);
      return Ok(result.value);
    }

    /** The growth that made no result: what it created is dropped. */
    ghost method GiveUp(spare: seq<Node>, start: Pool, ids: seq<Node>)
      requires cfg.Defined() && Solo(cfg, start) && start.recycler && start.queue == [] && start.usage == 1
      requires Unused(start, ids) && spare == ids && |ids| == 1 && NamesBelow(counts, gone, nextNode)
      requires View() == start.(counts := WithNew(start.counts, ids), block := start.block + 1)
      modifies this`lost
      ensures Valid() && Reaches(cfg, start, View()) && View() == GrowthFailed(start, ids[0])
      ensures ids[0] !in start.counts && counts == start.counts[ids[0] := RECYCLED] && lost == start.lost + {ids[0]}
      ensures AcquireTally(TallyOf(start)) == Err(CreateFailed) && TallyOf(View()) == TallyOf(start)
    {
      hide Solo, NamesBelow, WithNew, AcquireTally, Reaches;
      assert ids == [ids[0]] && ids[0] in ids;
      GrowthFailedIsRun(cfg, start, ids[0]);
      lost := lost + Elements(spare);
      assert Elements(spare) == {ids[0]};
      assert View() == GrowthFailed(start, ids[0]);
    }

    /** The growth that made a result. */
    method HandOver(into: Handle, spare: seq<Node>, n: Node, ghost start: Pool, ghost ids: seq<Node>)
      requires cfg.Defined() && Solo(cfg, start) && start.recycler && start.queue == [] && start.usage == |ids| >= 2
      requires into !in start.handles && Unused(start, ids) && n == ids[|ids| - 2] && spare == Spare(ids)
      requires View() == start.(counts := WithNew(start.counts, ids), block := start.block + |ids|)
      requires NamesBelow(counts, gone, nextNode)
      modifies this
      ensures Valid() && Reaches(cfg, start, View()) && View() == GrownPool(start, into, ids)
      ensures AcquireTally(TallyOf(start)) == Ok(TallyOf(View()))
      ensures handles == start.handles[into := n] && n in counts && counts[n] == 1 && n !in start.handles.Values
      ensures Distinct(queue) && |queue| == |ids| - 1 && n !in start.counts &&
              counts.Keys == start.counts.Keys + Elements(queue) + {n} &&
              (forall e | e in queue :: e !in start.counts && e != n && counts[e] == RECYCLED) &&
              (forall e | e in start.counts :: counts[e] == start.counts[e])
      ensures usage == start.usage + 1 && block == start.block + |ids| && gone == start.gone && lost == start.lost
      ensures unchanged(`shrinking, `reaper, `alive, `freed)
    {
      hide Solo, NamesBelow, WithNew, Unused, AcquireTally, TallyOf, Reaches;
      GrownIsRun(cfg, start, into, ids);
      ResultIsNew(start, ids, n);
      NewIsUnreferenced(cfg, start, n);
      NamesPut(counts, gone, nextNode, n, 1);
      Publish(into, spare, n);
      assert View() == GrownPool(start, into, ids);
      GrowthIsNew(start, ids, n, View());
    }

    /** Queues the spare nodes and hands the result out. */
    method Publish(into: Handle, spare: seq<Node>, n: Node)
      requires n in counts
      modifies this
      ensures View() ==
              old(View()).(queue := old(queue) + spare, usage := old(usage) + 1, counts := old(counts)[n := 1],
                                     handles := old(handles)[into := n])
      ensures nextNode == old(nextNode)
    {
      if spare != [] {
        queue := queue + spare;
      }
      usage := usage + 1;
      counts := counts[n := 1];
      handles := handles[into := n];
    }

    /** The creation loop: the node made when the counter has passed to 1 is the result. */
    method CreateNodes(num: nat, ghost ids: seq<Node>) returns (spare: seq<Node>, result: Option<Node>)
      requires num == |ids| > 0 && forall i | 0 <= i < num :: ids[i] == nextNode + i
      modifies this
      ensures View() == old(View()).(counts := WithNew(old(counts), ids), block := old(block) + num)
      ensures nextNode == old(nextNode) + num
      ensures if num == 1 then result == None && spare == ids else result == Some(ids[num - 2]) && spare == Spare(ids)
    {
      hide MidGrowth, WithNew, Spare;
      GrowthStarts(counts, ids);
      var left := num;
      spare, result := [], None;
      while left > 0
        invariant 0 <= left <= num && Growing(num, left, spare, result) == MidGrowth(ids, num - left)
        invariant nextNode == old(nextNode) + num - left
        invariant View() ==
                  old(View()).(counts := WithNew(old(counts), ids[..num - left]), block := old(block) + num - left)
      {
        MidGrowthStep(ids, num - left);
        WithNewStep(old(counts), ids, num - left);
        assert nextNode == ids[num - left];
        left := left - 1;
        var e := CreateNode();
        if left == 1 {
          result := Some(e);
        } else {
          spare := spare + [e];
        }
      }
      assert ids[..num] == ids;
      MidGrowthEnds(ids);
    }

    /** Frees idle nodes, as many as the snapshot decides and the queue has. */
    method Shrink()
      requires Valid() && alive
      modifies this
      ensures Valid() && Reaches(cfg, old(View()), View()) && View() == Freed(cfg, old(View()))
      ensures TallyOf(View()) == ShrinkTally(cfg, TallyOf(old(View()))) && old(usage) >= 0
      ensures var k := Min(ShrinkNum(cfg, old(usage), |old(queue)| + old(usage)), |old(queue)|);
              queue == old(queue)[k..] && counts == old(counts) - Elements(old(queue)[..k]) &&
              gone == old(gone) + Elements(old(queue)[..k]) && block == old(block) - k
      ensures unchanged(`handles, `usage, `shrinking, `reaper, `alive, `freed, `lost)
    {
      hide Solo, ShrinkNum, NamesBelow, Elements, Reaches, TallyOf, ShrinkTally, FreedPrefix;
      ghost var start := View();
      FreedIsRun(cfg, start);
      NotFreedYet(cfg, start);
      UsageIsNatural(cfg, start);
      PrefixStart(start);
      var num := ShrinkNum(cfg, usage, |queue| + usage);
      ghost var wanted := num;
      ghost var k := 0;
      while num > 0 && queue != []
        invariant k <= |start.queue| && queue == start.queue[k..] && 0 <= num == wanted - k
        invariant FreedPrefix(start, k, View()) && nextNode == old(nextNode)
      {
        ghost var before := View();
        num := num - 1;
        FreeFront();
        PrefixStep(start, k, before, View());
        k := k + 1;
      }
      PrefixSays(start, k, View());
      NamesFreed(start, k, nextNode);
    }

    /** The wake-up of the background shrink. */
    method WakeUp()
      requires Valid() && alive && reaper == Sleeping
      modifies this
      ensures Valid() && Reaches(cfg, old(View()), View()) && View() == Shrunk(cfg, old(View())) && old(usage) >= 0
      ensures var k := Min(ShrinkNum(cfg, old(usage), |old(queue)| + old(usage)), |old(queue)|);
              queue == old(queue)[k..] && counts == old(counts) - Elements(old(queue)[..k]) &&
              gone == old(gone) + Elements(old(queue)[..k]) && block == old(block) - k
      ensures !shrinking && reaper == Off && unchanged(`handles, `usage, `alive, `freed, `lost)
    {
      hide Solo, Freed, NamesBelow, Reaches, ShrinkNum, Elements;
      ShrunkIsRun(cfg, View());
      Shrink();
      shrinking := false;
      reaper := Off;
    }

    /** Destroys the node at the front of the queue. */
    method FreeFront()
      requires queue != []
      modifies this
      ensures View() == old(View()).(queue := old(queue)[1..], counts := old(counts) - {old(queue)[0]},
                                     gone := old(gone) + {old(queue)[0]}, block := old(block) - 1)
      ensures nextNode == old(nextNode)
    {
      var n := queue[0];
      queue := queue[1..];
      counts := counts - {n};
      gone := gone + {n};
      block := block - 1;
    }

    /** The destructor: frees the idle nodes, clears the pool pointer, drops the pool's reference. */
    method Destroy()
      requires Valid() && alive
      modifies this
      ensures Valid() && Reaches(cfg, old(View()), View()) && View() == Destroyed(old(View()))
      ensures queue == [] && counts == old(counts) - Elements(old(queue)) && gone == old(gone) + Elements(old(queue))
      ensures !alive && reaper == Off && block == old(block) - |old(queue)| - 1 && (freed <==> block == 0)
      ensures unchanged(`handles, `usage, `shrinking, `lost)
    {
      hide Solo, NamesBelow, Elements, Reaches, FreedPrefix;
      ghost var start := View();
      DestroyedIsRun(cfg, start);
      NotFreedYet(cfg, start);
      PrefixStart(start);
      ghost var k := 0;
      while queue != []
        invariant k <= |start.queue| && queue == start.queue[k..]
        invariant FreedPrefix(start, k, View()) && nextNode == old(nextNode)
      {
        ghost var before := View();
        FreeFront();
        PrefixStep(start, k, before, View());
        k := k + 1;
      }
      PrefixSays(start, k, View());
      assert start.queue[..k] == start.queue;
      NamesFreed(start, k, nextNode);
      reaper := Off;
      alive := false;
      block := block - 1;
      if block == 0 {
        freed := true;
      }
    }
  }

  /** `s` is `start` with the first `k` queued nodes destroyed. */
  ghost predicate FreedPrefix(start: Pool, k: nat, s: Pool)
    requires k <= |start.queue|
  {
    s == start.(queue := start.queue[k..], counts := start.counts - Elements(start.queue[..k]),
                gone := start.gone + Elements(start.queue[..k]), block := start.block - k)
  }

  lemma PrefixStart(s: Pool)
    ensures FreedPrefix(s, 0, s)
  {
    NoneFreed(s);
  }

  lemma PrefixSays(start: Pool, k: nat, s: Pool)
    requires k <= |start.queue| && FreedPrefix(start, k, s)
    ensures s == start.(queue := start.queue[k..], counts := start.counts - Elements(start.queue[..k]),
                        gone := start.gone + Elements(start.queue[..k]), block := start.block - k)
  {
  }

  lemma PrefixStep(start: Pool, k: nat, s: Pool, s': Pool)
    requires k < |start.queue| && FreedPrefix(start, k, s) && s.queue == start.queue[k..]
    requires s' == s.(queue := s.queue[1..], counts := s.counts - {s.queue[0]}, gone := s.gone + {s.queue[0]},
                      block := s.block - 1)
    ensures FreedPrefix(start, k + 1, s')
  {
    NextPrefix(start, k);
  }

  lemma NextPrefix(s: Pool, k: nat)
    requires k < |s.queue|
    ensures s.queue[k..][0] == s.queue[k] && s.queue[k..][1..] == s.queue[k + 1..]
    ensures s.counts - Elements(s.queue[..k]) - {s.queue[k]} == s.counts - Elements(s.queue[..k + 1])
    ensures s.gone + Elements(s.queue[..k]) + {s.queue[k]} == s.gone + Elements(s.queue[..k + 1])
  {
    assert s.queue[..k + 1] == s.queue[..k] + [s.queue[k]];
    assert Elements(s.queue[..k + 1]) == Elements(s.queue[..k]) + {s.queue[k]};
  }

  // ---------------------------------------------------------------------------------------------
  // Facts about the state between calls

  lemma IdleCountsSay(queue: seq<Node>)
    ensures IdleCounts(queue).Keys == Elements(queue) && forall n | n in queue :: IdleCounts(queue)[n] == RECYCLED
  {
  }

  lemma GrowthIsNew(start: Pool, ids: seq<Node>, n: Node, z: Pool)
    requires Unused(start, ids) && n in ids && Elements(z.queue) == Elements(ids) - {n}
    requires z.counts.Keys == start.counts.Keys + Elements(ids)
    requires forall e | e in ids :: e in z.counts && z.counts[e] == if e == n then 1 else RECYCLED
    ensures n !in start.counts && z.counts.Keys == start.counts.Keys + Elements(z.queue) + {n}
    ensures forall e | e in z.queue :: e !in start.counts && e != n && e in z.counts && z.counts[e] == RECYCLED
  {
    hide Elements, Distinct;
    OthersAmong(z.queue, ids, n);
    NewAndOthers(start.counts.Keys, Elements(ids), n);
  }

  lemma OthersAmong(spare: seq<Node>, ids: seq<Node>, n: Node)
    requires n in ids && Elements(spare) == Elements(ids) - {n}
    ensures n in Elements(ids) && forall e | e in spare :: e in ids && e != n
  {
    hide Elements;
    AmongElements(ids, n);
    forall e | e in spare
      ensures e in ids && e != n
    {
      AmongElements(spare, e);
      AmongElements(ids, e);
    }
  }

  lemma NewAndOthers(before: set<Node>, created: set<Node>, n: Node)
    requires n in created
    ensures before + created == before + (created - {n}) + {n}
  {
  }

  lemma AmongElements(q: seq<Node>, n: Node)
    ensures n in Elements(q) <==> n in q
  {
  }

  lemma StartIsSolo(cfg: Config, c0: nat)
    requires cfg.Defined() && c0 < SIZE_T
    ensures Solo(cfg, Start(c0))
  {
    StartIsReachable(cfg, c0);
  }

  lemma LastIsLive(cfg: Config, s: Pool, src: Handle)
    requires cfg.Defined() && Solo(cfg, s) && src in s.handles
    ensures s.handles[src] in s.counts && !s.freed
  {
    HandleFacts(cfg, s, src);
  }

  lemma NotFreedYet(cfg: Config, s: Pool)
    requires cfg.Defined() && Solo(cfg, s) && s.recycler
    ensures !s.freed && Elements(s.queue) <= s.counts.Keys
  {
    hide Reachable;
    IdleFacts(cfg, s);
    var p := ReachableHolds(cfg, s);
    hide HandleInv, HeldCountInv, RestCountInv, CarryCountInv, CarryInv, GrowInv, CopyInv, LastInv, ModeInv, HistoryInv;
    hide CallInv;
  }

  lemma UsageIsNatural(cfg: Config, s: Pool)
    requires cfg.Defined() && Solo(cfg, s) && s.recycler
    ensures s.usage >= 0
  {
    IdleFacts(cfg, s);
  }

  /** No handle refers to an idle node. */
  lemma IdleIsUnreferenced(cfg: Config, s: Pool, n: Node)
    requires cfg.Defined() && Solo(cfg, s) && n in s.queue
    ensures n !in s.handles.Values
  {
    hide Reachable;
    var p := ReachableHolds(cfg, s);
    hide HeldCountInv, RestCountInv, CarryCountInv, CarryInv, GrowInv, CopyInv, LastInv, ModeInv, HistoryInv, CallInv;
  }

  /** No handle refers to a node that is not alive. */
  lemma NoIdleCounts()
    ensures IdleCounts([]) == map[]
  {
  }

  lemma IdlePush(queue: seq<Node>, n: Node)
    ensures IdleCounts(queue + [n]) == IdleCounts(queue)[n := RECYCLED]
  {
  }

  lemma StartNames(capacity: nat)
    ensures NamesBelow(Start(capacity).counts, {}, capacity)
  {
  }

  lemma NewIsUnreferenced(cfg: Config, s: Pool, n: Node)
    requires cfg.Defined() && Solo(cfg, s) && n !in s.counts
    ensures n !in s.handles.Values
  {
    hide Reachable;
    var p := ReachableHolds(cfg, s);
    hide QueueInv, HeldCountInv, RestCountInv, CarryCountInv, CarryInv, GrowInv, CopyInv, LastInv, ModeInv, HistoryInv;
    hide CallInv;
  }

  /** Node names in use, or ever used, are below the allocator's next one. */
  ghost predicate NamesBelow(counts: map<Node, int>, gone: set<Node>, bound: nat) {
    (forall n | n in counts :: n < bound) && forall n | n in gone :: n < bound
  }

  lemma NamesPut(counts: map<Node, int>, gone: set<Node>, bound: nat, n: Node, count: int)
    requires NamesBelow(counts, gone, bound) && n in counts
    ensures NamesBelow(counts[n := count], gone, bound)
  {
  }

  lemma NamesFreed(s: Pool, k: nat, bound: nat)
    requires NamesBelow(s.counts, s.gone, bound) && k <= |s.queue| && Elements(s.queue) <= s.counts.Keys
    ensures NamesBelow(s.counts - Elements(s.queue[..k]), s.gone + Elements(s.queue[..k]), bound)
  {
    assert forall n | n in Elements(s.queue[..k]) :: n in Elements(s.queue);
  }

  lemma NamesAreUnused(s: Pool, base: nat, ids: seq<Node>)
    requires NamesBelow(s.counts, s.gone, base) && |s.counts| + |ids| < SIZE_T
    requires forall i | 0 <= i < |ids| :: ids[i] == base + i
    ensures Unused(s, ids)
  {
    forall n | n in ids
      ensures n !in s.counts && n !in s.gone
    {
      var i :| 0 <= i < |ids| && ids[i] == n;
      assert n >= base;
    }
  }

  lemma NamesGrow(counts: map<Node, int>, gone: set<Node>, ids: seq<Node>, base: nat)
    requires NamesBelow(counts, gone, base)
    requires forall i | 0 <= i < |ids| :: ids[i] == base + i
    ensures NamesBelow(WithNew(counts, ids), gone, base + |ids|)
  {
    forall n | n in WithNew(counts, ids)
      ensures n < base + |ids|
    {
      if n in ids {
        var i :| 0 <= i < |ids| && ids[i] == n;
      }
    }
  }

  lemma GrowthStarts(counts: map<Node, int>, ids: seq<Node>)
    requires |ids| >= 1
    ensures MidGrowth(ids, 0) == Growing(|ids|, |ids|, [], None) && WithNew(counts, ids[..0]) == counts
  {
  }

  lemma ResultIsNew(s: Pool, ids: seq<Node>, n: Node)
    requires Unused(s, ids) && n in ids
    ensures n !in s.counts && n in WithNew(s.counts, ids)
  {
  }

  lemma MidGrowthEnds(ids: seq<Node>)
    requires |ids| >= 1
    ensures var pc := MidGrowth(ids, |ids|);
            pc.Growing? &&
            if |ids| == 1 then pc.result == None && pc.spare == ids
            else pc.result == Some(ids[|ids| - 2]) && pc.spare == Spare(ids)
  {
    assert ids[..|ids|] == ids;
    assert |ids| >= 2 ==> ids[|ids| - 1..|ids|] == [ids[|ids| - 1]];
  }
}
