/** What the actions of the pool leave alone: the queue, other threads, shrinks and destroyed nodes. */
module RecyclerFrames {
  import opened Wrappers
  import opened Collections
  import opened RecyclerSizing
  import opened RecyclerSteps

  /** The actions that destroy nodes. */
  predicate Frees(a: Action) {
    a.DestroyNode? || a.ShrinkDelete? || a.CallDelete? || a.DestroyPool?
  }

  /** The actions of a shrink that destroy nothing. */
  predicate Schedules(a: Action) {
    a.ShrinkSnapshot? || a.ShrinkDone? || a.CallSnapshot?
  }

  /** No thread but `u` has moved, and no shrink but a new background one. */
  ghost predicate Leaves(s: Pool, z: Pool, u: Thread) {
    (forall t | t in s.pcs && t != u :: t in z.pcs && z.pcs[t] == s.pcs[t]) &&
    z.gone == s.gone && z.shrinks == s.shrinks && (z.reaper == s.reaper || !z.reaper.Doomed?)
  }

  /** Every other action leaves all this alone. */
  lemma StepLeaves(cfg: Config, s: Pool, a: Action, u: Thread)
    requires cfg.Defined() && Enabled(s, a) && !Frees(a) && !Schedules(a) && (a.Move? || a.t == u)
    ensures Leaves(s, Next(cfg, s, a), u)
    ensures Next(cfg, s, a).fault == Clear ==> Next(cfg, s, a).queue == NextQueue(s, a)
  {
    hide Leaves, Borrowed, DoCopyLoad, DoCopyExchange, DoMove, DoDrop, DoFindRecycler, DoOnRecycle, DoSubUsage, DoPush;
    hide DoFreeBlock, DoAcquire, DoLoadUsage, DoCreateNode, DoPublish, DoAddUsage, DoHandOut;
    match a
    case Move(src, into) => { MoveLeaves(s, src, into, u); }
    case CopyLoad(t, src) => { CopyLoadLeaves(s, t, src); }
    case CopyExchange(t, into, spurious) => { CopyExchangeLeaves(s, t, into, spurious); }
    case Drop(t, src) => { DropLeaves(s, t, src); }
    case FindRecycler(t) => { FindRecyclerLeaves(s, t); }
    case OnRecycle(t) => { OnRecycleLeaves(s, t); }
    case SubUsage(t) => { SubUsageLeaves(s, t); }
    case Push(t) => { PushLeaves(cfg, s, t); }
    case FreeBlock(t) => { FreeBlockLeaves(s, t); }
    case Acquire(t, into) => { AcquireLeaves(s, t, into); }
    case LoadUsage(t) => { LoadUsageLeaves(s, t); }
    case CreateNode(t, n) => { CreateNodeLeaves(s, t, n); }
    case Publish(t) => { PublishLeaves(s, t); }
    case AddUsage(t) => { AddUsageLeaves(s, t); }
    case HandOut(t, into) => { HandOutLeaves(s, t, into); }
  }

  /** The queue after an action that destroys nothing. */
  function NextQueue(s: Pool, a: Action): seq<Node>
    requires Enabled(s, a) && !Frees(a)
  {
    match a
    case Push(t) => s.queue + [s.pcs[t].node]
    case Acquire(_, _) => if s.queue == [] then [] else s.queue[1..]
    case Publish(t) => s.queue + if s.pcs[t].result.Some? then s.pcs[t].spare else []
    case _ => s.queue
  }

  /** A state that differs only in the place of one thread and in fields that do not matter. */
  lemma LeavesBy(s: Pool, z: Pool, t: Thread)
    requires z.pcs == s.pcs || z.pcs == s.pcs - {t} || (t in z.pcs && z.pcs == s.pcs[t := z.pcs[t]])
    requires z.gone == s.gone && z.shrinks == s.shrinks && (z.reaper == s.reaper || !z.reaper.Doomed?)
    ensures Leaves(s, z, t)
  {
  }

  /** `s1` is `s` with counts, handles, queue or usage changed. */
  ghost predicate Alike(s: Pool, s1: Pool) {
    s1.pcs == s.pcs && s1.gone == s.gone && s1.shrinks == s.shrinks && s1.reaper == s.reaper
  }

  lemma GoLeaves(s: Pool, s1: Pool, t: Thread, pc: Pc)
    requires Alike(s, s1)
    ensures Leaves(s, Go(s1, t, pc), t) && Go(s1, t, pc).queue == s1.queue
  {
  }

  lemma RestLeaves(s: Pool, s1: Pool, t: Thread)
    requires Alike(s, s1)
    ensures Leaves(s, Rest(s1, t), t) && Rest(s1, t).queue == s1.queue
  {
  }

  lemma FailLeaves(s: Pool, t: Thread, e: Fault)
    ensures Leaves(s, Fail(s, e), t) && Fail(s, e).queue == s.queue && Fail(s, e).fault == e
  {
  }

  lemma MoveLeaves(s: Pool, src: Handle, into: Handle, u: Thread)
    requires src in s.handles
    ensures DoMove(s, src, into).queue == s.queue && Leaves(s, DoMove(s, src, into), u)
  {
    hide Leaves;
    LeavesBy(s, DoMove(s, src, into), u);
  }

  lemma CopyLoadLeaves(s: Pool, t: Thread, src: Handle)
    requires src in s.handles
    ensures Leaves(s, DoCopyLoad(s, t, src), t)
    ensures DoCopyLoad(s, t, src).queue == s.queue
  {
    hide Leaves, Go, Rest, Fail;
    var n := s.handles[src];
    FailLeaves(s, t, DanglingNode);
    FailLeaves(s, t, IncreaseWhileRecycled);
    if n in s.counts {
      GoLeaves(s, s, t, Copying(src, s.counts[n]));
    }
  }

  lemma CopyExchangeLeaves(s: Pool, t: Thread, into: Handle, spurious: bool)
    requires t in s.pcs && s.pcs[t].Copying? && s.pcs[t].src in s.handles
    ensures Leaves(s, DoCopyExchange(s, t, into, spurious), t)
    ensures DoCopyExchange(s, t, into, spurious).queue == s.queue
  {
    hide Leaves, Go, Rest, Fail;
    var src := s.pcs[t].src;
    var n := s.handles[src];
    FailLeaves(s, t, DanglingNode);
    FailLeaves(s, t, IncreaseWhileRecycled);
    if n in s.counts {
      GoLeaves(s, s, t, Copying(src, s.counts[n]));
      RestLeaves(s, s.(counts := s.counts[n := s.counts[n] + 1], handles := s.handles[into := n]), t);
    }
  }

  lemma DropLeaves(s: Pool, t: Thread, src: Handle)
    requires src in s.handles
    ensures Leaves(s, DoDrop(s, t, src), t)
    ensures DoDrop(s, t, src).queue == s.queue
  {
    hide Leaves, Go, Rest, Fail;
    var n := s.handles[src];
    FailLeaves(s, t, DanglingNode);
    if n in s.counts {
      var after := s.(counts := s.counts[n := s.counts[n] - 1], handles := s.handles - {src});
      LeavesBy(s, after, t);
      GoLeaves(s, after, t, Dropped(n));
    }
  }

  lemma FindRecyclerLeaves(s: Pool, t: Thread)
    requires t in s.pcs && s.pcs[t].Dropped?
    ensures Leaves(s, DoFindRecycler(s, t), t)
    ensures DoFindRecycler(s, t).queue == s.queue
  {
    hide Leaves;
    LeavesBy(s, DoFindRecycler(s, t), t);
  }

  lemma OnRecycleLeaves(s: Pool, t: Thread)
    requires t in s.pcs && s.pcs[t].Returning?
    ensures Leaves(s, DoOnRecycle(s, t), t)
    ensures DoOnRecycle(s, t).queue == s.queue
  {
    hide Leaves;
    LeavesBy(s, DoOnRecycle(s, t), t);
  }

  lemma SubUsageLeaves(s: Pool, t: Thread)
    requires t in s.pcs && s.pcs[t].Recycled?
    ensures Leaves(s, DoSubUsage(s, t), t)
    ensures DoSubUsage(s, t).queue == s.queue
  {
    hide Leaves;
    LeavesBy(s, DoSubUsage(s, t), t);
  }

  lemma PushLeaves(cfg: Config, s: Pool, t: Thread)
    requires t in s.pcs && s.pcs[t].Uncounted?
    ensures Leaves(s, DoPush(cfg, s, t), t)
    ensures DoPush(cfg, s, t).queue == s.queue + [s.pcs[t].node]
  {
    hide Leaves, AsSize;
    LeavesBy(s, DoPush(cfg, s, t), t);
  }

  lemma FreeBlockLeaves(s: Pool, t: Thread)
    requires t in s.pcs && s.pcs[t].LastOut?
    ensures Leaves(s, DoFreeBlock(s, t), t)
    ensures DoFreeBlock(s, t).queue == s.queue
  {
    hide Leaves;
    LeavesBy(s, DoFreeBlock(s, t), t);
  }

  lemma AcquireLeaves(s: Pool, t: Thread, into: Handle)
    requires s.fault == Clear
    ensures Leaves(s, DoAcquire(s, t, into), t)
    ensures DoAcquire(s, t, into).fault == Clear ==> DoAcquire(s, t, into).queue == if s.queue == []
              then [] else s.queue[1..]
  {
    hide Leaves, Go, Rest, Fail;
    GoLeaves(s, s, t, Missed);
    FailLeaves(s, t, DanglingNode);
    FailLeaves(s, t, AcquireOnNonRecycled);
    if s.queue != [] {
      var n := s.queue[0];
      var z := s.(queue := s.queue[1..], usage := s.usage + 1, counts := s.counts[n := 1],
        handles := s.handles[into := n]);
      LeavesBy(s, z, t);
    }
  }

  lemma LoadUsageLeaves(s: Pool, t: Thread)
    ensures Leaves(s, DoLoadUsage(s, t), t)
    ensures DoLoadUsage(s, t).queue == s.queue
  {
    hide Leaves, Go, Rest, Fail;
    if s.usage <= 0 {
      RestLeaves(s, s, t);
    } else {
      GoLeaves(s, s, t, Growing(s.usage, s.usage, [], None));
    }
  }

  lemma CreateNodeLeaves(s: Pool, t: Thread, n: Node)
    requires t in s.pcs && s.pcs[t].Growing? && s.pcs[t].left > 0
    ensures Leaves(s, DoCreateNode(s, t, n), t)
    ensures DoCreateNode(s, t, n).queue == s.queue
  {
    hide Leaves;
    LeavesBy(s, DoCreateNode(s, t, n), t);
  }

  lemma PublishLeaves(s: Pool, t: Thread)
    requires t in s.pcs && s.pcs[t].Growing?
    ensures Leaves(s, DoPublish(s, t), t)
    ensures DoPublish(s, t).queue == s.queue + if s.pcs[t].result.Some? then s.pcs[t].spare else []
  {
    hide Leaves, Elements;
    LeavesBy(s, DoPublish(s, t), t);
  }

  lemma AddUsageLeaves(s: Pool, t: Thread)
    requires t in s.pcs && s.pcs[t].Published?
    ensures Leaves(s, DoAddUsage(s, t), t)
    ensures DoAddUsage(s, t).queue == s.queue
  {
    hide Leaves;
    LeavesBy(s, DoAddUsage(s, t), t);
  }

  lemma HandOutLeaves(s: Pool, t: Thread, into: Handle)
    requires t in s.pcs && s.pcs[t].Counted?
    ensures Leaves(s, DoHandOut(s, t, into), t)
    ensures DoHandOut(s, t, into).queue == s.queue
  {
    hide Leaves, Go, Rest, Fail;
    var n := s.pcs[t].node;
    FailLeaves(s, t, DanglingNode);
    FailLeaves(s, t, AcquireOnNonRecycled);
    RestLeaves(s, s.(counts := s.counts[n := 1], handles := s.handles[into := n]), t);
  }

  // ---------------------------------------------------------------------------------------------
  // Freeing

  lemma FreeingLeaves(s: Pool, ns: seq<Node>)
    ensures var z := FreeNodes(s, ns);
            z.queue == s.queue && z.recycler == s.recycler && z.pcs == s.pcs && z.shrinks == s.shrinks &&
            z.reaper == s.reaper && s.gone <= z.gone
  {
    hide Fail, Elements;
    FailingLeaves(s, DanglingBlock);
    FailingLeaves(s, DanglingNode);
  }

  lemma FailingLeaves(s: Pool, e: Fault)
    ensures var z := Fail(s, e);
            z.queue == s.queue && z.recycler == s.recycler && z.pcs == s.pcs && z.shrinks == s.shrinks &&
            z.reaper == s.reaper && z.gone == s.gone
  {
  }

  /** What an action destroys. */
  function Freed(s: Pool, a: Action): seq<Node>
    requires Enabled(s, a) && Frees(a)
  {
    match a
    case DestroyNode(t) => [s.pcs[t].node]
    case ShrinkDelete => s.queue[..Min(s.reaper.due.num, |s.queue|)]
    case CallDelete(c) => s.queue[..Min(s.shrinks[c].num, |s.queue|)]
    case DestroyPool(_) => s.queue
  }

  /** Destroying nodes shortens the queue unless they were not queued, and moves no other thread. */
  lemma FreeLeaves(cfg: Config, s: Pool, a: Action)
    requires cfg.Defined() && Enabled(s, a) && Frees(a)
    ensures var z := Next(cfg, s, a);
            s.gone <= z.gone &&
            (forall t | t in s.pcs && (a.DestroyNode? || a.DestroyPool? ==> t != a.t) ::
              t in z.pcs && z.pcs[t] == s.pcs[t]) &&
            (z.fault == Clear ==> z.queue == if a.DestroyNode? then s.queue else s.queue[|Freed(s, a)|..])
  {
    hide DoDestroyNode, DoShrinkDelete, DoCallDelete, DoDestroyPool, Quiet;
    match a
    case DestroyNode(t) => { DestroyNodeLeaves(s, t); }
    case ShrinkDelete => { ShrinkDeleteLeaves(s); }
    case CallDelete(c) => { CallDeleteLeaves(s, c); }
    case DestroyPool(t) => { DestroyPoolLeaves(s, t); }
  }

  lemma DestroyNodeLeaves(s: Pool, t: Thread)
    requires t in s.pcs && s.pcs[t].Orphan?
    ensures var z := DoDestroyNode(s, t);
            s.gone <= z.gone && z.queue == s.queue && forall u | u in s.pcs && u != t ::
              u in z.pcs && z.pcs[u] == s.pcs[u]
  {
    hide FreeNodes;
    FreeingLeaves(s, [s.pcs[t].node]);
  }

  lemma ShrinkDeleteLeaves(s: Pool)
    requires s.reaper.Doomed?
    ensures var z := DoShrinkDelete(s);
            s.gone <= z.gone && z.pcs == s.pcs &&
            (z.fault == Clear ==> z.queue == s.queue[Min(s.reaper.due.num, |s.queue|)..])
  {
    hide FreeNodes, AgedCalls;
    FreeingLeaves(s, s.queue[..Min(s.reaper.due.num, |s.queue|)]);
  }

  lemma CallDeleteLeaves(s: Pool, c: Call)
    requires c in s.shrinks
    ensures var z := DoCallDelete(s, c);
            s.gone <= z.gone && z.pcs == s.pcs &&
            (z.fault == Clear ==> z.queue == s.queue[Min(s.shrinks[c].num, |s.queue|)..])
  {
    hide FreeNodes, AgedCalls, AgedReaper;
    FreeingLeaves(s, s.queue[..Min(s.shrinks[c].num, |s.queue|)]);
  }

  lemma DestroyPoolLeaves(s: Pool, t: Thread)
    ensures var z := DoDestroyPool(s, t);
            s.gone <= z.gone && (z.fault == Clear ==> z.queue == []) &&
            forall u | u in s.pcs && u != t :: u in z.pcs && z.pcs[u] == s.pcs[u]
  {
    hide FreeNodes;
    FreeingLeaves(s, s.queue);
  }
}
