/**
 The object pool at the grain of its atomics and critical sections.

 Any number of threads copy, move, cast and drop handles, acquire nodes, return them and call Shrink,
 while a background coroutine shrinks the pool and some thread may destroy it.  An action is one atomic
 access or one critical section; a run is any list of enabled actions, so it covers every
 interleaving under sequentially consistent memory.

 The pool begins initialized.  Its destructor is one action, enabled when no thread is inside a
 method of the pool: releasing into the pool is atomic against its destruction.
 */
module RecyclerSteps {
  import opened Wrappers
  import opened Collections
  import opened RecyclerSizing

  type Node = nat
  type Handle = nat
  type Thread = nat
  /** A direct call of Shrink between its snapshot and its deletions. */
  type Call = nat

  const RECYCLED := -10

  /** Where a thread stands between two actions; a thread that is not in the map is idle. */
  datatype Pc =
    /** IncRefCount through the handle `src`, which read `cur` and is about to compare-exchange. */
    | Copying(src: Handle, cur: int)
    /** DecRefCount saw 1: this thread is the releaser of `node`. */
    | Dropped(node: Node)
    /** The pool was alive; OnRecycle, the usage decrement and the push are still to come. */
    | Returning(node: Node)
    | Recycled(node: Node)
    | Uncounted(node: Node)
    /** The pool was dead; the node is to be destroyed by this thread. */
    | Orphan(node: Node)
    /** AcquireNode found the queue empty. */
    | Missed
    /** `want` nodes are to be created, `left` of them are missing. */
    | Growing(want: nat, left: nat, spare: seq<Node>, result: Option<Node>)
    | Published(node: Node)
    | Counted(node: Node)
    /** The control block's count fell to zero under this thread's decrement. */
    | LastOut

  /** What a shrink decided to free, and how many nodes other shrinks freed since (history). */
  datatype Pending = Pending(num: nat, freed: nat)

  /** The background shrink. */
  datatype Reaper = Off | Sleeping | Doomed(due: Pending) | Finished

  datatype Fault =
    | Clear
    | AcquireOnNonRecycled
    | IncreaseWhileRecycled
    | DanglingNode
    | DanglingBlock

  /**
   counts      mRefCount of every live node
   handles     the node of every non-null handle
   queue       mQueue
   block       the control block's mRefCount
   recycler    whether the control block still points to the pool
   freed, gone the control block was deleted; nodes destroyed so far (history)
   lost        nodes dropped by the "Create New Element Failed" exception (history)
   shrinks     the direct calls of Shrink that have decided and not yet deleted
   */
  datatype Pool = Pool(
    counts: map<Node, int>, handles: map<Handle, Node>, queue: seq<Node>, usage: int,
    shrinking: bool, reaper: Reaper, block: int, recycler: bool, freed: bool,
    gone: set<Node>, lost: set<Node>, shrinks: map<Call, Pending>, pcs: map<Thread, Pc>, fault: Fault)

  datatype Action =
    | CopyLoad(t: Thread, src: Handle)
    | CopyExchange(t: Thread, into: Handle, spurious: bool)
    | Move(src: Handle, into: Handle)
    | Drop(t: Thread, src: Handle)
    | FindRecycler(t: Thread)
    | OnRecycle(t: Thread)
    | SubUsage(t: Thread)
    | Push(t: Thread)
    | DestroyNode(t: Thread)
    | FreeBlock(t: Thread)
    | Acquire(t: Thread, into: Handle)
    | LoadUsage(t: Thread)
    | CreateNode(t: Thread, node: Node)
    | Publish(t: Thread)
    | AddUsage(t: Thread)
    | HandOut(t: Thread, into: Handle)
    | ShrinkSnapshot
    | ShrinkDelete
    | ShrinkDone
    | CallSnapshot(c: Call)
    | CallDelete(c: Call)
    | DestroyPool(t: Thread)

  function IdleCounts(queue: seq<Node>): map<Node, int> {
    map n | n in Elements(queue) :: RECYCLED
  }

  /** The initialized pool of `c0` nodes. */
  function Start(c0: nat): Pool {
    var queue: seq<Node> := seq(c0, i => i);
    Pool(IdleCounts(queue), map[], queue, 0,
         false, Off, c0 + 1, true, false, {}, {}, map[], map[], Clear)
  }

  predicate Idle(s: Pool, t: Thread) {
    t !in s.pcs
  }

  /** A handle object outlives every copy being made from it. */
  predicate Borrowed(s: Pool, h: Handle) {
    exists t | t in s.pcs :: s.pcs[t].Copying? && s.pcs[t].src == h
  }

  /** Whether a thread at `pc` is executing a method of the pool. */
  predicate InPool(pc: Pc) {
    pc.Returning? || pc.Recycled? || pc.Uncounted? || pc.Missed? || pc.Growing? || pc.Published? || pc.Counted?
  }

  predicate Quiet(s: Pool) {
    (forall t | t in s.pcs :: !InPool(s.pcs[t])) && (s.reaper == Off || s.reaper == Sleeping) && s.shrinks == map[]
  }

  predicate Enabled(s: Pool, a: Action) {
    s.fault == Clear &&
    match a
    case CopyLoad(t, src) => Idle(s, t) && src in s.handles
    case CopyExchange(t, into, _) => t in s.pcs && s.pcs[t].Copying? && s.pcs[t].src in s.handles && into !in s.handles
    case Move(src, into) => src in s.handles && !Borrowed(s, src) && into !in s.handles
    case Drop(t, src) => Idle(s, t) && src in s.handles && !Borrowed(s, src)
    case FindRecycler(t) => t in s.pcs && s.pcs[t].Dropped?
    case OnRecycle(t) => t in s.pcs && s.pcs[t].Returning?
    case SubUsage(t) => t in s.pcs && s.pcs[t].Recycled?
    case Push(t) => t in s.pcs && s.pcs[t].Uncounted?
    case DestroyNode(t) => t in s.pcs && s.pcs[t].Orphan?
    case FreeBlock(t) => t in s.pcs && s.pcs[t].LastOut?
    case Acquire(t, into) => Idle(s, t) && s.recycler && into !in s.handles
    case LoadUsage(t) => t in s.pcs && s.pcs[t].Missed?
    case CreateNode(t, n) => t in s.pcs && s.pcs[t].Growing? && s.pcs[t].left > 0 && n !in s.counts && n !in s.gone
                             && |s.counts| + 1 < SIZE_T
    case Publish(t) => t in s.pcs && s.pcs[t].Growing? && s.pcs[t].left == 0
    case AddUsage(t) => t in s.pcs && s.pcs[t].Published?
    case HandOut(t, into) => t in s.pcs && s.pcs[t].Counted? && into !in s.handles
    case ShrinkSnapshot => s.recycler && s.reaper.Sleeping?
    case ShrinkDelete => s.recycler && s.reaper.Doomed?
    case ShrinkDone => s.recycler && s.reaper.Finished?
    case CallSnapshot(c) => s.recycler && c !in s.shrinks
    case CallDelete(c) => s.recycler && c in s.shrinks
    case DestroyPool(t) => Idle(s, t) && s.recycler && Quiet(s)
  }

  function Go(s: Pool, t: Thread, pc: Pc): Pool {
    s.(pcs := s.pcs[t := pc])
  }

  function Rest(s: Pool, t: Thread): Pool {
    s.(pcs := s.pcs - {t})
  }

  function Fail(s: Pool, f: Fault): Pool {
    s.(fault := f)
  }

  /** Destroys the nodes: each one's destructor decrements the control block's count. */
  function FreeNodes(s: Pool, ns: seq<Node>): Pool {
    if s.freed then Fail(s, DanglingBlock)
    else if exists n | n in ns :: n !in s.counts then Fail(s, DanglingNode)
    else s.(counts := s.counts - Elements(ns), gone := s.gone + Elements(ns), block := s.block - |ns|)
  }

  function DoCopyLoad(s: Pool, t: Thread, src: Handle): Pool
    requires src in s.handles
  {
    var n := s.handles[src];
    if n !in s.counts then Fail(s, DanglingNode)
    else if s.counts[n] < 0 then Fail(s, IncreaseWhileRecycled)
    else Go(s, t, Copying(src, s.counts[n]))
  }

  function DoCopyExchange(s: Pool, t: Thread, into: Handle, spurious: bool): Pool
    requires t in s.pcs && s.pcs[t].Copying? && s.pcs[t].src in s.handles
  {
    var src := s.pcs[t].src;
    var n := s.handles[src];
    if n !in s.counts then Fail(s, DanglingNode)
    else if s.counts[n] == s.pcs[t].cur && !spurious then
      Rest(s.(counts := s.counts[n := s.counts[n] + 1], handles := s.handles[into := n]), t)
    else if s.counts[n] < 0 then Fail(s, IncreaseWhileRecycled)
    else Go(s, t, Copying(src, s.counts[n]))
  }

  function DoMove(s: Pool, src: Handle, into: Handle): Pool
    requires src in s.handles
  {
    s.(handles := (s.handles - {src})[into := s.handles[src]])
  }

  function DoDrop(s: Pool, t: Thread, src: Handle): Pool
    requires src in s.handles
  {
    var n := s.handles[src];
    if n !in s.counts then Fail(s, DanglingNode)
    else
      var after := s.(counts := s.counts[n := s.counts[n] - 1], handles := s.handles - {src});
      if s.counts[n] == 1 then Go(after, t, Dropped(n)) else after
  }

  function DoFindRecycler(s: Pool, t: Thread): Pool
    requires t in s.pcs && s.pcs[t].Dropped?
  {
    var n := s.pcs[t].node;
    if n !in s.counts then Fail(s, DanglingNode)
    else if s.freed then Fail(s, DanglingBlock)
    else Go(s, t, if s.recycler then Returning(n) else Orphan(n))
  }

  function DoOnRecycle(s: Pool, t: Thread): Pool
    requires t in s.pcs && s.pcs[t].Returning?
  {
    var n := s.pcs[t].node;
    if n !in s.counts then Fail(s, DanglingNode)
    else Go(s.(counts := s.counts[n := RECYCLED]), t, Recycled(n))
  }

  function DoSubUsage(s: Pool, t: Thread): Pool
    requires t in s.pcs && s.pcs[t].Recycled?
  {
    Go(s.(usage := s.usage - 1), t, Uncounted(s.pcs[t].node))
  }

  /** The push and the decision to start a background shrink, under the pool's lock. */
  function DoPush(cfg: Config, s: Pool, t: Thread): Pool
    requires t in s.pcs && s.pcs[t].Uncounted?
  {
    var after := Rest(s.(queue := s.queue + [s.pcs[t].node]), t);
    if s.shrinking || AsSize(|after.queue| + s.usage) < AsSize(cfg.shrinkCount) then after
    else after.(shrinking := true, reaper := Sleeping)
  }

  function DoDestroyNode(s: Pool, t: Thread): Pool
    requires t in s.pcs && s.pcs[t].Orphan?
  {
    var after := FreeNodes(s, [s.pcs[t].node]);
    if after.fault != Clear then after
    else if after.block == 0 then Go(after, t, LastOut)
    else Rest(after, t)
  }

  /** The decrement that reached zero re-reads the pool pointer before it deletes the block. */
  function DoFreeBlock(s: Pool, t: Thread): Pool
    requires t in s.pcs && s.pcs[t].LastOut?
  {
    if s.freed then Fail(s, DanglingBlock)
    else Rest(if s.recycler then s else s.(freed := true), t)
  }

  function DoAcquire(s: Pool, t: Thread, into: Handle): Pool {
    if s.queue == [] then Go(s, t, Missed)
    else
      var n := s.queue[0];
      if n !in s.counts then Fail(s, DanglingNode)
      else if s.counts[n] != RECYCLED then Fail(s, AcquireOnNonRecycled)
      else s.(queue := s.queue[1..], usage := s.usage + 1,
              counts := s.counts[n := 1], handles := s.handles[into := n])
  }

  /** "Recycler expand num equal zero" is thrown when no node is in use. */
  function DoLoadUsage(s: Pool, t: Thread): Pool {
    if s.usage <= 0 then Rest(s, t) else Go(s, t, Growing(s.usage, s.usage, [], None))
  }

  /** One pass of the creation loop: the node made when the counter has passed to 1 is the result. */
  function DoCreateNode(s: Pool, t: Thread, n: Node): Pool
    requires t in s.pcs && s.pcs[t].Growing? && s.pcs[t].left > 0
  {
    var Growing(want, left, spare, result) := s.pcs[t];
    if s.freed then Fail(s, DanglingBlock)
    else
      Go(s.(counts := s.counts[n := RECYCLED], block := s.block + 1), t,
         if left == 2 then Growing(want, 1, spare, Some(n)) else Growing(want, left - 1, spare + [n], result))
  }

  /** Without a result "Create New Element Failed" is thrown and the created nodes are dropped. */
  function DoPublish(s: Pool, t: Thread): Pool
    requires t in s.pcs && s.pcs[t].Growing?
  {
    var Growing(_, _, spare, result) := s.pcs[t];
    if result.None? then Rest(s.(lost := s.lost + Elements(spare)), t)
    else Go(s.(queue := s.queue + spare), t, Published(result.value))
  }

  function DoAddUsage(s: Pool, t: Thread): Pool
    requires t in s.pcs && s.pcs[t].Published?
  {
    Go(s.(usage := s.usage + 1), t, Counted(s.pcs[t].node))
  }

  function DoHandOut(s: Pool, t: Thread, into: Handle): Pool
    requires t in s.pcs && s.pcs[t].Counted?
  {
    var n := s.pcs[t].node;
    if n !in s.counts then Fail(s, DanglingNode)
    else if s.counts[n] != RECYCLED then Fail(s, AcquireOnNonRecycled)
    else Rest(s.(counts := s.counts[n := 1], handles := s.handles[into := n]), t)
  }

  /** The decision of Shrink, under a lock that is released before the deletions. */
  function Decision(cfg: Config, s: Pool): nat
    requires cfg.Defined()
  {
    if s.usage < 0 then 0 else ShrinkNum(cfg, s.usage, |s.queue| + s.usage)
  }

  function DoShrinkSnapshot(cfg: Config, s: Pool): Pool
    requires cfg.Defined()
  {
    var num := Decision(cfg, s);
    s.(reaper := if num == 0 then Finished else Doomed(Pending(num, 0)))
  }

  /** Other shrinks remember that `k` nodes were freed. */
  function AgedCalls(shrinks: map<Call, Pending>, k: nat): map<Call, Pending> {
    map c | c in shrinks :: Pending(shrinks[c].num, shrinks[c].freed + k)
  }

  function AgedReaper(reaper: Reaper, k: nat): Reaper {
    if reaper.Doomed? then Doomed(Pending(reaper.due.num, reaper.due.freed + k)) else reaper
  }

  /** The deletions of a shrink, as many as decided and as the queue has. */
  function Deleted(s: Pool, num: nat): Pool {
    var k := Min(num, |s.queue|);
    var after := FreeNodes(s, s.queue[..k]);
    if after.fault != Clear then after else after.(queue := s.queue[k..])
  }

  function DoShrinkDelete(s: Pool): Pool
    requires s.reaper.Doomed?
  {
    var after := Deleted(s, s.reaper.due.num);
    if after.fault != Clear then after
    else after.(shrinks := AgedCalls(s.shrinks, Min(s.reaper.due.num, |s.queue|)), reaper := Finished)
  }

  function DoCallSnapshot(cfg: Config, s: Pool, c: Call): Pool
    requires cfg.Defined()
  {
    var num := Decision(cfg, s);
    if num == 0 then s else s.(shrinks := s.shrinks[c := Pending(num, 0)])
  }

  function DoCallDelete(s: Pool, c: Call): Pool
    requires c in s.shrinks
  {
    var num := s.shrinks[c].num;
    var after := Deleted(s, num);
    var k := Min(num, |s.queue|);
    if after.fault != Clear then after
    else after.(shrinks := AgedCalls(s.shrinks - {c}, k), reaper := AgedReaper(s.reaper, k))
  }

  function DoDestroyPool(s: Pool, t: Thread): Pool {
    var drained := FreeNodes(s, s.queue);
    if drained.fault != Clear then drained
    else
      var after := drained.(queue := [], recycler := false, reaper := Off, block := drained.block - 1);
      if after.block == 0 then Go(after, t, LastOut) else after
  }

  function Next(cfg: Config, s: Pool, a: Action): Pool
    requires cfg.Defined() && Enabled(s, a)
  {
    match a
    case CopyLoad(t, src) => DoCopyLoad(s, t, src)
    case CopyExchange(t, into, spurious) => DoCopyExchange(s, t, into, spurious)
    case Move(src, into) => DoMove(s, src, into)
    case Drop(t, src) => DoDrop(s, t, src)
    case FindRecycler(t) => DoFindRecycler(s, t)
    case OnRecycle(t) => DoOnRecycle(s, t)
    case SubUsage(t) => DoSubUsage(s, t)
    case Push(t) => DoPush(cfg, s, t)
    case DestroyNode(t) => DoDestroyNode(s, t)
    case FreeBlock(t) => DoFreeBlock(s, t)
    case Acquire(t, into) => DoAcquire(s, t, into)
    case LoadUsage(t) => DoLoadUsage(s, t)
    case CreateNode(t, n) => DoCreateNode(s, t, n)
    case Publish(t) => DoPublish(s, t)
    case AddUsage(t) => DoAddUsage(s, t)
    case HandOut(t, into) => DoHandOut(s, t, into)
    case ShrinkSnapshot => DoShrinkSnapshot(cfg, s)
    case ShrinkDelete => DoShrinkDelete(s)
    case ShrinkDone => s.(shrinking := false, reaper := Off)
    case CallSnapshot(c) => DoCallSnapshot(cfg, s, c)
    case CallDelete(c) => DoCallDelete(s, c)
    case DestroyPool(t) => DoDestroyPool(s, t)
  }

  /** Every action of the list is enabled where it is taken. */
  predicate IsRun(cfg: Config, s: Pool, run: seq<Action>)
    requires cfg.Defined()
    decreases |run|
  {
    run == [] || (Enabled(s, run[0]) && IsRun(cfg, Next(cfg, s, run[0]), run[1..]))
  }

  function After(cfg: Config, s: Pool, run: seq<Action>): Pool
    requires cfg.Defined() && IsRun(cfg, s, run)
    decreases |run|
  {
    if run == [] then s else After(cfg, Next(cfg, s, run[0]), run[1..])
  }
}
