/**
 The invariant of the pool's atomic steps.

 The proof gives every live node a place.  A step moves at most the nodes it touches, so "exactly
 one of idle, held or in transit" holds because places form a function.
 */
module RecyclerInvariant {
  import opened Wrappers
  import opened Collections
  import opened RecyclerSizing
  import opened RecyclerSteps

  /** `With` is in transit by one thread; `inUse` tells whether mUsage still counts the node. */
  datatype Place = InQueue | Held | With(t: Thread, inUse: bool) | Lost

  type Places = map<Node, Place>

  /** The nodes a thread at `pc` alone is responsible for. */
  function Carried(pc: Pc): set<Node> {
    match pc
    case Dropped(n) => {n}
    case Returning(n) => {n}
    case Recycled(n) => {n}
    case Uncounted(n) => {n}
    case Orphan(n) => {n}
    case Growing(_, _, spare, result) => Elements(spare) + if result.Some? then {result.value} else {}
    case Published(n) => {n}
    case Counted(n) => {n}
    case _ => {}
  }

  predicate InUse(pc: Pc) {
    pc.Dropped? || pc.Returning? || pc.Recycled? || pc.Orphan? || pc.Counted?
  }

  function CarriedCount(pc: Pc): int {
    if pc.Dropped? || pc.Returning? || pc.Orphan? then 0 else RECYCLED
  }

  /** Whether mUsage counts a node at this place. */
  predicate CountedAt(at: Place) {
    at.Held? || (at.With? && at.inUse)
  }

  function InUseNodes(p: Places): set<Node> {
    set n | n in p && CountedAt(p[n])
  }

  ghost predicate QueueInv(queue: seq<Node>, p: Places) {
    Distinct(queue) && forall n :: n in queue <==> n in p && p[n] == InQueue
  }

  ghost predicate HandleInv(handles: map<Handle, Node>, p: Places) {
    forall h | h in handles :: handles[h] in p && p[handles[h]] == Held
  }

  /** A held node's count is the number of its handles. */
  ghost predicate HeldCountInv(counts: map<Node, int>, handles: map<Handle, Node>, p: Places)
    requires p.Keys == counts.Keys
  {
    forall n | n in p && p[n] == Held :: counts[n] == |Claims(handles, n)| && counts[n] >= 1
  }

  ghost predicate RestCountInv(counts: map<Node, int>, p: Places)
    requires p.Keys == counts.Keys
  {
    forall n | n in p && (p[n] == InQueue || p[n] == Lost) :: counts[n] == RECYCLED
  }

  ghost predicate CarryCountInv(counts: map<Node, int>, pcs: map<Thread, Pc>, p: Places)
    requires p.Keys == counts.Keys
  {
    forall n | n in p && p[n].With? && p[n].t in pcs :: counts[n] == CarriedCount(pcs[p[n].t])
  }

  ghost predicate CarryInv(pcs: map<Thread, Pc>, p: Places) {
    (forall t, n | t in pcs && n in Carried(pcs[t]) :: n in p && p[n] == With(t, InUse(pcs[t]))) &&
    (forall n | n in p && p[n].With? :: p[n].t in pcs && n in Carried(pcs[p[n].t]))
  }

  /** How far the creation loop has come. */
  ghost predicate GrowShape(pc: Pc) {
    pc.Growing? ==>
      Distinct(pc.spare) && 1 <= pc.want && pc.left <= pc.want &&
      (pc.result.Some? <==> pc.left <= 1 && pc.want >= 2) &&
      (pc.result.Some? ==> pc.result.value !in pc.spare) &&
      |pc.spare| == pc.want - pc.left - if pc.result.Some? then 1 else 0
  }

  ghost predicate GrowInv(pcs: map<Thread, Pc>) {
    forall t | t in pcs :: GrowShape(pcs[t])
  }

  ghost predicate CopyInv(pcs: map<Thread, Pc>, handles: map<Handle, Node>) {
    forall t | t in pcs && pcs[t].Copying? :: pcs[t].src in handles && pcs[t].cur >= 0
  }

  ghost predicate UsageInv(usage: int, recycler: bool, p: Places) {
    recycler ==> usage == |InUseNodes(p)|
  }

  /** The control block counts the live nodes and the live pool. */
  ghost predicate BlockInv(block: int, recycler: bool, freed: bool, p: Places) {
    if freed then p == map[] && !recycler
    else block == |p| + if recycler then 1 else 0
  }

  /** One thread, and only one, is to delete a block whose count has reached zero. */
  ghost predicate LastInv(pcs: map<Thread, Pc>, recycler: bool, freed: bool, p: Places) {
    (forall t | t in pcs && pcs[t].LastOut? :: !freed && !recycler && p == map[]) &&
    (forall t, u | t in pcs && u in pcs && pcs[t].LastOut? && pcs[u].LastOut? :: t == u) &&
    (!recycler && p == map[] && !freed ==> exists t :: t in pcs && pcs[t].LastOut?)
  }

  /** What a live pool excludes, and what a dead one does. */
  ghost predicate ModeInv(pcs: map<Thread, Pc>, recycler: bool) {
    forall t | t in pcs :: if recycler then !pcs[t].Orphan? else !InPool(pcs[t])
  }

  ghost predicate ReaperInv(cfg: Config, recycler: bool, shrinking: bool, reaper: Reaper, queue: seq<Node>, p: Places) {
    (if recycler then shrinking <==> reaper != Off else queue == [] && reaper == Off) &&
    (reaper.Doomed? ==> Decides(cfg) && Covered(cfg, reaper.due, |p|))
  }

  /** Some snapshot makes a shrink free nodes. */
  ghost predicate Decides(cfg: Config) {
    cfg.Defined() && exists usage: nat, total: nat :: total < SIZE_T && ShrinkNum(cfg, usage, total) > 0
  }

  /** What a shrink is about to free leaves 64 nodes, less those that others freed since its snapshot. */
  ghost predicate Covered(cfg: Config, due: Pending, live: nat) {
    cfg.Sane() ==> due.num + MINIMUM_CAPACITY <= live + due.freed
  }

  /** While the pool lives, each direct shrink that is to free nodes is covered. */
  ghost predicate CallInv(cfg: Config, recycler: bool, shrinks: map<Call, Pending>, live: nat) {
    (!recycler ==> shrinks == map[]) && (shrinks != map[] ==> Decides(cfg)) &&
    forall c | c in shrinks :: shrinks[c].num > 0 && Covered(cfg, shrinks[c], live)
  }

  ghost predicate HistoryInv(gone: set<Node>, lost: set<Node>, p: Places) {
    gone !! p.Keys && |p| < SIZE_T && forall n :: n in lost <==> n in p && p[n] == Lost
  }

  ghost predicate Inv(cfg: Config, s: Pool, p: Places) {
    s.fault == Clear && p.Keys == s.counts.Keys &&
    QueueInv(s.queue, p) && HandleInv(s.handles, p) &&
    HeldCountInv(s.counts, s.handles, p) && RestCountInv(s.counts, p) && CarryCountInv(s.counts, s.pcs, p) &&
    CarryInv(s.pcs, p) && GrowInv(s.pcs) && CopyInv(s.pcs, s.handles) &&
    UsageInv(s.usage, s.recycler, p) && BlockInv(s.block, s.recycler, s.freed, p) &&
    LastInv(s.pcs, s.recycler, s.freed, p) && ModeInv(s.pcs, s.recycler) &&
    ReaperInv(cfg, s.recycler, s.shrinking, s.reaper, s.queue, p) && HistoryInv(s.gone, s.lost, p) &&
    CallInv(cfg, s.recycler, s.shrinks, |p|)
  }

  // ---------------------------------------------------------------------------------------------
  // Counting

  lemma RemoveSize(p: Places, ns: set<Node>)
    requires ns <= p.Keys
    ensures |p - ns| == |p| - |ns|
  {
    assert (p - ns).Keys == p.Keys - ns;
  }

  lemma PutSize(p: Places, n: Node, at: Place)
    ensures |p[n := at]| == |p| + if n in p then 0 else 1
  {
    assert p[n := at].Keys == p.Keys + {n};
  }

  // ---------------------------------------------------------------------------------------------
  // What the invariant says of one handle and of one carried node

  lemma HeldFacts(cfg: Config, s: Pool, p: Places, h: Handle)
    requires Inv(cfg, s, p) && h in s.handles
    ensures s.handles[h] in p && s.handles[h] in s.counts && p[s.handles[h]] == Held && s.counts[s.handles[h]] >= 1
  {
    hide QueueInv, HandleInv, HeldCountInv, RestCountInv, CarryCountInv, CarryInv, GrowInv, CopyInv;
    hide UsageInv, BlockInv, LastInv, ModeInv, ReaperInv, HistoryInv, CallInv;
    HeldSays(s.counts, s.handles, p, h);
  }

  lemma HeldSays(counts: map<Node, int>, handles: map<Handle, Node>, p: Places, h: Handle)
    requires p.Keys == counts.Keys && HandleInv(handles, p) && HeldCountInv(counts, handles, p) && h in handles
    ensures handles[h] in p && handles[h] in counts && p[handles[h]] == Held && counts[handles[h]] >= 1
  {
  }

  lemma CarriedFacts(cfg: Config, s: Pool, p: Places, t: Thread, n: Node)
    requires Inv(cfg, s, p) && t in s.pcs && n in Carried(s.pcs[t])
    ensures n in p && n in s.counts && p[n] == With(t, InUse(s.pcs[t])) && s.counts[n] == CarriedCount(s.pcs[t])
  {
    hide QueueInv, HandleInv, HeldCountInv, RestCountInv, CarryCountInv, CarryInv, GrowInv, CopyInv;
    hide UsageInv, BlockInv, LastInv, ModeInv, ReaperInv, HistoryInv, CallInv;
    CarriedSays(s.counts, s.pcs, p, t, n);
  }

  lemma CarriedSays(counts: map<Node, int>, pcs: map<Thread, Pc>, p: Places, t: Thread, n: Node)
    requires p.Keys == counts.Keys && CarryInv(pcs, p) && CarryCountInv(counts, pcs, p)
    requires t in pcs && n in Carried(pcs[t])
    ensures n in p && n in counts && p[n] == With(t, InUse(pcs[t])) && counts[n] == CarriedCount(pcs[t])
  {
    hide Carried, InUse, CarriedCount;
  }

  lemma QueuedFacts(cfg: Config, s: Pool, p: Places, n: Node)
    requires Inv(cfg, s, p) && n in s.queue
    ensures n in p && n in s.counts && p[n] == InQueue && s.counts[n] == RECYCLED
  {
    hide QueueInv, HandleInv, HeldCountInv, RestCountInv, CarryCountInv, CarryInv, GrowInv, CopyInv;
    hide UsageInv, BlockInv, LastInv, ModeInv, ReaperInv, HistoryInv, CallInv;
    QueuedSays(s.counts, s.queue, p, n);
  }

  lemma QueuedSays(counts: map<Node, int>, queue: seq<Node>, p: Places, n: Node)
    requires p.Keys == counts.Keys && QueueInv(queue, p) && RestCountInv(counts, p) && n in queue
    ensures n in p && n in counts && p[n] == InQueue && counts[n] == RECYCLED
  {
  }

  // ---------------------------------------------------------------------------------------------
  // One thread moves on

  /** The conjuncts that only look at where threads stand. */
  ghost predicate ThreadInv(pcs: map<Thread, Pc>, handles: map<Handle, Node>, recycler: bool) {
    GrowInv(pcs) && CopyInv(pcs, handles) && ModeInv(pcs, recycler)
  }

  /** A thread may stand at `pc`. */
  ghost predicate Fits(pc: Pc, handles: map<Handle, Node>, recycler: bool) {
    GrowShape(pc) && (pc.Copying? ==> pc.src in handles && pc.cur >= 0) &&
    if recycler then !pc.Orphan? else !InPool(pc)
  }

  lemma ThreadGo(pcs: map<Thread, Pc>, handles: map<Handle, Node>, recycler: bool, t: Thread, pc: Pc)
    requires ThreadInv(pcs, handles, recycler) && Fits(pc, handles, recycler)
    ensures ThreadInv(pcs[t := pc], handles, recycler)
  {
  }

  lemma ThreadRest(pcs: map<Thread, Pc>, handles: map<Handle, Node>, recycler: bool, t: Thread)
    requires ThreadInv(pcs, handles, recycler)
    ensures ThreadInv(pcs - {t}, handles, recycler)
  {
  }

  /** A thread that neither is nor becomes the deleter leaves the deleter alone. */
  lemma LastKeep(pcs: map<Thread, Pc>, recycler: bool, freed: bool, p: Places, p': Places, t: Thread, pc: Pc)
    requires LastInv(pcs, recycler, freed, p) && (t in pcs ==> !pcs[t].LastOut?) && !pc.LastOut?
    requires recycler || p != map[] || p' == p
    requires recycler || p' != map[] || p' == p
    ensures LastInv(pcs[t := pc], recycler, freed, p') && LastInv(pcs - {t}, recycler, freed, p')
  {
    if !recycler && p' == map[] && !freed {
      var u :| u in pcs && pcs[u].LastOut?;
      assert u in pcs[t := pc] && pcs[t := pc][u].LastOut?;
      assert u in pcs - {t} && (pcs - {t})[u].LastOut?;
    }
  }

  ghost predicate CarryAll(counts: map<Node, int>, pcs: map<Thread, Pc>, p: Places)
    requires p.Keys == counts.Keys
  {
    CarryInv(pcs, p) && CarryCountInv(counts, pcs, p)
  }

  /** Nodes carried by threads other than `t` keep their place and their count. */
  ghost predicate OthersKeep(p: Places, p': Places, counts: map<Node, int>, counts': map<Node, int>, t: Thread)
    requires p.Keys == counts.Keys && p'.Keys == counts'.Keys
  {
    (forall n | n in p && p[n].With? && p[n].t != t :: n in p' && p'[n] == p[n] && counts'[n] == counts[n]) &&
    (forall n | n in p' && p'[n].With? && p'[n].t != t :: n in p && p[n] == p'[n])
  }

  ghost predicate NowCarries(p': Places, counts': map<Node, int>, t: Thread, pc: Pc)
    requires p'.Keys == counts'.Keys
  {
    (forall n | n in Carried(pc) :: n in p' && p'[n] == With(t, InUse(pc)) && counts'[n] == CarriedCount(pc)) &&
    (forall n | n in p' && p'[n].With? && p'[n].t == t :: n in Carried(pc))
  }

  lemma CarryGoes(
    counts: map<Node, int>, counts': map<Node, int>, pcs: map<Thread, Pc>, p: Places, p': Places, t: Thread, pc: Pc)
    requires p.Keys == counts.Keys && p'.Keys == counts'.Keys && CarryAll(counts, pcs, p)
    requires OthersKeep(p, p', counts, counts', t) && NowCarries(p', counts', t, pc)
    ensures CarryAll(counts', pcs[t := pc], p')
  {
    hide Carried, InUse, CarriedCount;
  }

  lemma CarryStops(
    counts: map<Node, int>, counts': map<Node, int>, pcs: map<Thread, Pc>, p: Places, p': Places, t: Thread, pc: Pc)
    requires p.Keys == counts.Keys && p'.Keys == counts'.Keys && CarryAll(counts, pcs, p) && Carried(pc) == {}
    requires OthersKeep(p, p', counts, counts', t) && NowCarries(p', counts', t, pc)
    ensures CarryAll(counts', pcs - {t}, p')
  {
    hide Carried, InUse, CarriedCount;
  }

  lemma CarryGo(pcs: map<Thread, Pc>, p: Places, p': Places, counts: map<Node, int>, counts': map<Node, int>,
                t: Thread, pc: Pc)
    requires p.Keys == counts.Keys && p'.Keys == counts'.Keys && CarryAll(counts, pcs, p)
    requires OthersKeep(p, p', counts, counts', t) && NowCarries(p', counts', t, pc)
    ensures CarryAll(counts', pcs[t := pc], p')
    ensures Carried(pc) == {} ==> CarryAll(counts', pcs - {t}, p')
  {
    hide Carried, InUse, CarriedCount;
    CarryGoes(counts, counts', pcs, p, p', t, pc);
    if Carried(pc) == {} {
      CarryStops(counts, counts', pcs, p, p', t, pc);
    }
  }

  /** A thread that carried nothing and carries nothing. */
  lemma CarryPlain(pcs: map<Thread, Pc>, p: Places, counts: map<Node, int>, counts': map<Node, int>, t: Thread, pc: Pc)
    requires p.Keys == counts.Keys == counts'.Keys && CarryAll(counts, pcs, p)
    requires forall n | n in p && p[n].With? :: counts'[n] == counts[n]
    requires Carried(pc) == {} && (t in pcs ==> Carried(pcs[t]) == {})
    ensures CarryAll(counts', pcs[t := pc], p) && CarryAll(counts', pcs - {t}, p)
  {
    CarryGo(pcs, p, p, counts, counts', t, pc);
  }

  /** A thread that carried nothing or only `n`, and now carries only `n`. */
  lemma CarryOne(pcs: map<Thread, Pc>, p: Places, counts: map<Node, int>, t: Thread, pc: Pc, n: Node)
    requires p.Keys == counts.Keys && CarryAll(counts, pcs, p)
    requires Carried(pc) == {n} && (t in pcs ==> Carried(pcs[t]) == {n} || Carried(pcs[t]) == {})
    requires n in p ==> !p[n].With? || p[n].t == t
    ensures CarryAll(counts[n := CarriedCount(pc)], pcs[t := pc], p[n := With(t, InUse(pc))])
  {
    CarryGo(pcs, p, p[n := With(t, InUse(pc))], counts, counts[n := CarriedCount(pc)], t, pc);
  }

  /** A thread that carried only `n` hands it over to a place of its own. */
  lemma CarryOff(pcs: map<Thread, Pc>, p: Places, counts: map<Node, int>, t: Thread, n: Node, at: Place, count: int)
    requires p.Keys == counts.Keys && CarryAll(counts, pcs, p)
    requires t in pcs && Carried(pcs[t]) == {n} && n in p && !at.With?
    ensures CarryAll(counts[n := count], pcs - {t}, p[n := at]) && CarryAll(counts - {n}, pcs - {t}, p - {n})
  {
    hide CarryAll, Carried;
    CarryPut(pcs, p, counts, t, n, at, count);
    CarryDrop(pcs, p, counts, t, n);
  }

  lemma CarryPut(pcs: map<Thread, Pc>, p: Places, counts: map<Node, int>, t: Thread, n: Node, at: Place, count: int)
    requires p.Keys == counts.Keys && CarryAll(counts, pcs, p)
    requires t in pcs && Carried(pcs[t]) == {n} && n in p && !at.With?
    ensures CarryAll(counts[n := count], pcs - {t}, p[n := at])
  {
    hide InUse, CarriedCount;
    assert p[n] == With(t, InUse(pcs[t]));
    CarryStops(counts, counts[n := count], pcs, p, p[n := at], t, Missed);
  }

  lemma CarryDrop(pcs: map<Thread, Pc>, p: Places, counts: map<Node, int>, t: Thread, n: Node)
    requires p.Keys == counts.Keys && CarryAll(counts, pcs, p)
    requires t in pcs && Carried(pcs[t]) == {n} && n in p
    ensures CarryAll(counts - {n}, pcs - {t}, p - {n})
  {
    hide InUse, CarriedCount;
    assert p[n] == With(t, InUse(pcs[t]));
    CarryStops(counts, counts - {n}, pcs, p, p - {n}, t, Missed);
  }

  // ---------------------------------------------------------------------------------------------
  // One node changes place

  /** A node that no handle refers to, before or after. */
  lemma UnheldPut(counts: map<Node, int>, handles: map<Handle, Node>, p: Places, n: Node, at: Place, count: int)
    requires p.Keys == counts.Keys && HandleInv(handles, p) && HeldCountInv(counts, handles, p)
    requires (n in p ==> p[n] != Held) && at != Held
    ensures HandleInv(handles, p[n := at]) && HeldCountInv(counts[n := count], handles, p[n := at])
  {
  }

  /** A node gets its first handle. */
  lemma HeldCountNew(counts: map<Node, int>, handles: map<Handle, Node>, p: Places, into: Handle, n: Node)
    requires p.Keys == counts.Keys && HandleInv(handles, p) && HeldCountInv(counts, handles, p)
    requires n in p && p[n] != Held && into !in handles
    ensures HandleInv(handles[into := n], p[n := Held])
    ensures HeldCountInv(counts[n := 1], handles[into := n], p[n := Held])
  {
    assert Claims(handles, n) == {};
    forall m | m in p && (m == n || p[m] == Held)
      ensures |Claims(handles[into := n], m)| == |Claims(handles, m)| + if m == n then 1 else 0
    {
      ClaimsGrow(handles, into, n, m);
    }
  }

  lemma RestCountOther(counts: map<Node, int>, p: Places, n: Node, count: int)
    requires p.Keys == counts.Keys && RestCountInv(counts, p) && n in p && (p[n].Held? || p[n].With?)
    ensures RestCountInv(counts[n := count], p)
  {
  }

  lemma RestCountPut(counts: map<Node, int>, p: Places, n: Node, at: Place, count: int)
    requires p.Keys == counts.Keys && RestCountInv(counts, p) && (at.Held? || at.With? || count == RECYCLED)
    ensures RestCountInv(counts[n := count], p[n := at])
  {
  }

  lemma QueueOther(queue: seq<Node>, p: Places, n: Node, at: Place)
    requires QueueInv(queue, p) && (n in p ==> p[n] != InQueue) && at != InQueue
    ensures QueueInv(queue, p[n := at])
  {
  }

  lemma QueuePush(queue: seq<Node>, p: Places, n: Node)
    requires QueueInv(queue, p) && n in p && p[n] != InQueue
    ensures QueueInv(queue + [n], p[n := InQueue])
  {
  }

  lemma QueuePop(queue: seq<Node>, p: Places)
    requires QueueInv(queue, p) && queue != []
    ensures queue[0] in p && QueueInv(queue[1..], p[queue[0] := Held])
  {
    assert queue[0] in queue;
    assert queue == [queue[0]] + queue[1..];
  }

  lemma HistoryOther(gone: set<Node>, lost: set<Node>, p: Places, n: Node, at: Place)
    requires HistoryInv(gone, lost, p) && n in p && p[n] != Lost && at != Lost
    ensures HistoryInv(gone, lost, p[n := at])
  {
    PutSize(p, n, at);
  }

  /** A node outside every thread's hands changes place. */
  lemma CarryUntouched(pcs: map<Thread, Pc>, p: Places, counts: map<Node, int>, n: Node, at: Place, count: int)
    requires p.Keys == counts.Keys && CarryAll(counts, pcs, p) && n in p && !p[n].With? && !at.With?
    ensures CarryAll(counts[n := count], pcs, p[n := at])
  {
  }

  lemma InUsePut(p: Places, n: Node, at: Place)
    ensures |InUseNodes(p[n := at])| ==
            |InUseNodes(p)| - (if n in InUseNodes(p) then 1 else 0) + if CountedAt(at) then 1 else 0
  {
    InUsePutSet(p, n, at);
    hide InUseNodes;
    var rest := InUseNodes(p) - {n};
    assert |rest| == |InUseNodes(p)| - if n in InUseNodes(p) then 1 else 0;
    assert n !in rest;
  }

  lemma InUsePutSet(p: Places, n: Node, at: Place)
    ensures InUseNodes(p[n := at]) == (InUseNodes(p) - {n}) + if CountedAt(at) then {n} else {}
  {
  }

  // ---------------------------------------------------------------------------------------------
  // Handles

  lemma HeldCountCopy(counts: map<Node, int>, handles: map<Handle, Node>, p: Places, into: Handle, n: Node)
    requires p.Keys == counts.Keys && HeldCountInv(counts, handles, p)
    requires n in p && p[n] == Held && into !in handles
    ensures HeldCountInv(counts[n := counts[n] + 1], handles[into := n], p)
  {
    forall m | m in p && p[m] == Held
      ensures |Claims(handles[into := n], m)| == |Claims(handles, m)| + if m == n then 1 else 0
    {
      ClaimsGrow(handles, into, n, m);
    }
  }

  lemma HeldCountMove(counts: map<Node, int>, handles: map<Handle, Node>, p: Places, src: Handle, into: Handle)
    requires p.Keys == counts.Keys && HeldCountInv(counts, handles, p) && src in handles && into !in handles
    ensures HeldCountInv(counts, (handles - {src})[into := handles[src]], p)
  {
    var rest := handles - {src};
    var n := handles[src];
    forall m | m in p && p[m] == Held
      ensures |Claims(rest[into := n], m)| == |Claims(handles, m)|
    {
      ClaimsShrink(handles, src, m);
      ClaimsGrow(rest, into, n, m);
    }
  }

  lemma HeldCountDrop(counts: map<Node, int>, handles: map<Handle, Node>, p: Places, src: Handle, t: Thread)
    requires p.Keys == counts.Keys && HeldCountInv(counts, handles, p) && HandleInv(handles, p) && src in handles
    ensures var n := handles[src];
            var p' := if counts[n] == 1 then p[n := With(t, true)] else p;
            HeldCountInv(counts[n := counts[n] - 1], handles - {src}, p') && HandleInv(handles - {src}, p')
  {
    var n := handles[src];
    forall m | m in p && p[m] == Held
      ensures |Claims(handles - {src}, m)| == |Claims(handles, m)| - if m == n then 1 else 0
    {
      ClaimsShrink(handles, src, m);
    }
    if counts[n] == 1 {
      assert Claims(handles - {src}, n) == {};
      forall h | h in handles - {src}
        ensures handles[h] != n
      {
        assert handles[h] == n ==> h in Claims(handles - {src}, n);
      }
    }
  }

  lemma CopyLoadKeeps(cfg: Config, s: Pool, p: Places, t: Thread, src: Handle)
    requires cfg.Defined() && Inv(cfg, s, p) && Enabled(s, CopyLoad(t, src))
    ensures Inv(cfg, Next(cfg, s, CopyLoad(t, src)), p)
  {
    HeldFacts(cfg, s, p, src);
    hide QueueInv, HandleInv, HeldCountInv, RestCountInv, CarryCountInv, CarryInv, GrowInv, CopyInv, LastInv, ModeInv;
    hide CallInv;
    var pc := Copying(src, s.counts[s.handles[src]]);
    CarryPlain(s.pcs, p, s.counts, s.counts, t, pc);
    ThreadGo(s.pcs, s.handles, s.recycler, t, pc);
    LastKeep(s.pcs, s.recycler, s.freed, p, p, t, pc);
  }

  lemma CopyExchangeKeeps(cfg: Config, s: Pool, p: Places, t: Thread, into: Handle, spurious: bool)
    requires cfg.Defined() && Inv(cfg, s, p) && Enabled(s, CopyExchange(t, into, spurious))
    ensures Inv(cfg, Next(cfg, s, CopyExchange(t, into, spurious)), p)
  {
    hide QueueInv, HandleInv, HeldCountInv, RestCountInv, CarryCountInv, CarryInv, GrowInv, CopyInv;
    hide LastInv, ModeInv, HistoryInv, CallInv, Next;
    CopyExchangeGives(cfg, s, t, into, spurious);
    hide Enabled;
    HeldFacts(cfg, s, p, s.pcs[t].src);
    var n := s.handles[s.pcs[t].src];
    var pc := Copying(s.pcs[t].src, s.counts[n]);
    LastKeep(s.pcs, s.recycler, s.freed, p, p, t, pc);
    if s.counts[n] == s.pcs[t].cur && !spurious {
      var counts := s.counts[n := s.counts[n] + 1];
      CarryPlain(s.pcs, p, s.counts, counts, t, pc);
      HeldCountCopy(s.counts, s.handles, p, into, n);
      RestCountOther(s.counts, p, n, s.counts[n] + 1);
      HandleAdd(s.handles, p, into, n);
      CopiesSurvive(s.pcs, s.handles, into, n);
      ThreadRest(s.pcs, s.handles[into := n], s.recycler, t);
    } else {
      CarryPlain(s.pcs, p, s.counts, s.counts, t, pc);
      ThreadGo(s.pcs, s.handles, s.recycler, t, pc);
    }
  }

  lemma CopyExchangeGives(cfg: Config, s: Pool, t: Thread, into: Handle, spurious: bool)
    requires cfg.Defined() && Enabled(s, CopyExchange(t, into, spurious))
    ensures t in s.pcs && s.pcs[t].Copying? && s.pcs[t].src in s.handles && into !in s.handles && s.fault == Clear
    ensures Next(cfg, s, CopyExchange(t, into, spurious)) == DoCopyExchange(s, t, into, spurious)
  {
    hide DoCopyExchange;
  }

  lemma CopiesSurvive(pcs: map<Thread, Pc>, handles: map<Handle, Node>, into: Handle, n: Node)
    requires CopyInv(pcs, handles)
    ensures CopyInv(pcs, handles[into := n])
  {
  }

  lemma CopiesSurviveDrop(s: Pool, src: Handle)
    requires CopyInv(s.pcs, s.handles) && !Borrowed(s, src)
    ensures CopyInv(s.pcs, s.handles - {src})
  {
  }

  lemma HandleAdd(handles: map<Handle, Node>, p: Places, into: Handle, n: Node)
    requires HandleInv(handles, p) && n in p && p[n] == Held
    ensures HandleInv(handles[into := n], p)
  {
  }

  lemma MoveKeeps(cfg: Config, s: Pool, p: Places, src: Handle, into: Handle)
    requires cfg.Defined() && Inv(cfg, s, p) && Enabled(s, Move(src, into))
    ensures Inv(cfg, Next(cfg, s, Move(src, into)), p)
  {
    hide QueueInv, RestCountInv, CarryCountInv, CarryInv, GrowInv, LastInv, ModeInv, HeldCountInv, CallInv;
    HeldCountMove(s.counts, s.handles, p, src, into);
  }

  lemma DropKeeps(cfg: Config, s: Pool, p: Places, t: Thread, src: Handle)
    returns (p': Places)
    requires cfg.Defined() && Inv(cfg, s, p) && Enabled(s, Drop(t, src))
    ensures Inv(cfg, Next(cfg, s, Drop(t, src)), p')
  {
    hide QueueInv, HandleInv, HeldCountInv, RestCountInv, CarryCountInv, CarryInv, GrowInv, CopyInv, LastInv, ModeInv;
    hide HistoryInv, CallInv;
    HeldFacts(cfg, s, p, src);
    p' := if s.counts[s.handles[src]] == 1 then p[s.handles[src] := With(t, true)] else p;
    CopiesSurviveDrop(s, src);
    if s.counts[s.handles[src]] == 1 {
      DropLastKeeps(cfg, s, p, t, src);
    } else {
      DropSomeKeeps(cfg, s, p, t, src);
    }
  }

  lemma DropSomeKeeps(cfg: Config, s: Pool, p: Places, t: Thread, src: Handle)
    requires Inv(cfg, s, p) && Idle(s, t) && src in s.handles && CopyInv(s.pcs, s.handles - {src})
    requires s.counts[s.handles[src]] != 1
    ensures Inv(cfg, DoDrop(s, t, src), p)
  {
    hide QueueInv, HandleInv, HeldCountInv, RestCountInv, CarryCountInv, CarryInv, GrowInv, CopyInv, LastInv, ModeInv;
    hide HistoryInv, CallInv;
    HeldFacts(cfg, s, p, src);
    var n := s.handles[src];
    HeldCountDrop(s.counts, s.handles, p, src, t);
    RestCountOther(s.counts, p, n, s.counts[n] - 1);
    CarryPlain(s.pcs, p, s.counts, s.counts[n := s.counts[n] - 1], t, Missed);
    assert s.pcs - {t} == s.pcs;
  }

  lemma DropLastKeeps(cfg: Config, s: Pool, p: Places, t: Thread, src: Handle)
    requires Inv(cfg, s, p) && Idle(s, t) && src in s.handles && CopyInv(s.pcs, s.handles - {src})
    requires s.counts[s.handles[src]] == 1
    ensures Inv(cfg, DoDrop(s, t, src), p[s.handles[src] := With(t, true)])
  {
    hide QueueInv, HandleInv, HeldCountInv, RestCountInv, CarryCountInv, CarryInv, GrowInv, CopyInv, LastInv, ModeInv;
    hide HistoryInv, CallInv;
    HeldFacts(cfg, s, p, src);
    var n := s.handles[src];
    HeldCountDrop(s.counts, s.handles, p, src, t);
    PutSize(p, n, With(t, true));
    InUsePut(p, n, With(t, true));
    QueueOther(s.queue, p, n, With(t, true));
    HistoryOther(s.gone, s.lost, p, n, With(t, true));
    RestCountPut(s.counts, p, n, With(t, true), 0);
    CarryOne(s.pcs, p, s.counts, t, Dropped(n), n);
    LastKeep(s.pcs, s.recycler, s.freed, p, p[n := With(t, true)], t, Dropped(n));
    ThreadGo(s.pcs, s.handles - {src}, s.recycler, t, Dropped(n));
  }

  // ---------------------------------------------------------------------------------------------
  // Releasing

  lemma ModeFacts(cfg: Config, s: Pool, p: Places, t: Thread)
    requires Inv(cfg, s, p) && t in s.pcs
    ensures InPool(s.pcs[t]) ==> s.recycler
    ensures s.pcs[t].Orphan? ==> !s.recycler
    ensures s.pcs[t].LastOut? ==> !s.recycler && !s.freed && p == map[]
    ensures GrowShape(s.pcs[t])
  {
    hide QueueInv, HandleInv, HeldCountInv, RestCountInv, CarryCountInv, CarryInv, CopyInv, HistoryInv, CallInv;
  }

  lemma FindRecyclerKeeps(cfg: Config, s: Pool, p: Places, t: Thread)
    requires cfg.Defined() && Inv(cfg, s, p) && Enabled(s, FindRecycler(t))
    ensures Inv(cfg, Next(cfg, s, FindRecycler(t)), p)
  {
    hide QueueInv, HandleInv, HeldCountInv, RestCountInv, CarryCountInv, CarryInv, GrowInv, CopyInv, LastInv, ModeInv;
    hide HistoryInv, CallInv;
    var n := s.pcs[t].node;
    CarriedFacts(cfg, s, p, t, n);
    var pc := if s.recycler then Returning(n) else Orphan(n);
    CarryOne(s.pcs, p, s.counts, t, pc, n);
    assert s.counts[n := 0] == s.counts && p[n := With(t, true)] == p;
    ThreadGo(s.pcs, s.handles, s.recycler, t, pc);
    LastKeep(s.pcs, s.recycler, s.freed, p, p, t, pc);
  }

  lemma OnRecycleKeeps(cfg: Config, s: Pool, p: Places, t: Thread)
    requires cfg.Defined() && Inv(cfg, s, p) && Enabled(s, OnRecycle(t))
    ensures Inv(cfg, Next(cfg, s, OnRecycle(t)), p)
  {
    hide QueueInv, HandleInv, HeldCountInv, RestCountInv, CarryCountInv, CarryInv, GrowInv, CopyInv, LastInv, ModeInv;
    hide HistoryInv, CallInv;
    var n := s.pcs[t].node;
    CarriedFacts(cfg, s, p, t, n);
    ModeFacts(cfg, s, p, t);
    CarryOne(s.pcs, p, s.counts, t, Recycled(n), n);
    assert p[n := With(t, true)] == p;
    UnheldPut(s.counts, s.handles, p, n, With(t, true), RECYCLED);
    RestCountOther(s.counts, p, n, RECYCLED);
    ThreadGo(s.pcs, s.handles, s.recycler, t, Recycled(n));
    LastKeep(s.pcs, s.recycler, s.freed, p, p, t, Recycled(n));
  }

  lemma SubUsageKeeps(cfg: Config, s: Pool, p: Places, t: Thread)
    returns (p': Places)
    requires cfg.Defined() && Inv(cfg, s, p) && Enabled(s, SubUsage(t))
    ensures Inv(cfg, Next(cfg, s, SubUsage(t)), p')
  {
    hide QueueInv, HandleInv, HeldCountInv, RestCountInv, CarryCountInv, CarryInv, GrowInv, CopyInv, LastInv, ModeInv;
    hide HistoryInv, CallInv;
    p' := p[s.pcs[t].node := With(t, false)];
    var n := s.pcs[t].node;
    CarriedFacts(cfg, s, p, t, n);
    CarriedFlag(cfg, s, p, t, n, Uncounted(n));
    assert n in InUseNodes(p);
  }

  /** A thread that carries `n` moves on inside the pool and only the usage flag changes. */
  lemma CarriedFlag(cfg: Config, s: Pool, p: Places, t: Thread, n: Node, pc: Pc)
    requires Inv(cfg, s, p) && t in s.pcs && Carried(s.pcs[t]) == {n} == Carried(pc) && InPool(s.pcs[t])
    requires GrowShape(pc) && !pc.Copying? && !pc.LastOut? && !pc.Orphan? && CarriedCount(pc) == CarriedCount(s.pcs[t])
    ensures var at := With(t, InUse(pc));
            var p' := p[n := at];
            var usage := s.usage + (if InUse(pc) then 1 else 0) - (if InUse(s.pcs[t]) then 1 else 0);
            n in p && s.recycler && Inv(cfg, Go(s.(usage := usage), t, pc), p')
  {
    hide QueueInv, HandleInv, HeldCountInv, RestCountInv, CarryCountInv, CarryInv, GrowInv, CopyInv, LastInv, ModeInv;
    hide HistoryInv, CallInv;
    CarriedFacts(cfg, s, p, t, n);
    ModeFacts(cfg, s, p, t);
    var at := With(t, InUse(pc));
    assert s.counts[n := CarriedCount(pc)] == s.counts;
    CarryOne(s.pcs, p, s.counts, t, pc, n);
    UnheldPut(s.counts, s.handles, p, n, at, CarriedCount(pc));
    RestCountPut(s.counts, p, n, at, CarriedCount(pc));
    QueueOther(s.queue, p, n, at);
    HistoryOther(s.gone, s.lost, p, n, at);
    InUsePut(p, n, at);
    PutSize(p, n, at);
    ThreadGo(s.pcs, s.handles, s.recycler, t, pc);
    LastKeep(s.pcs, s.recycler, s.freed, p, p[n := at], t, pc);
  }

  lemma PushKeeps(cfg: Config, s: Pool, p: Places, t: Thread)
    returns (p': Places)
    requires cfg.Defined() && Inv(cfg, s, p) && Enabled(s, Push(t))
    ensures Inv(cfg, Next(cfg, s, Push(t)), p')
  {
    hide QueueInv, HandleInv, HeldCountInv, RestCountInv, CarryCountInv, CarryInv, GrowInv, CopyInv;
    hide LastInv, ModeInv, HistoryInv, CallInv, Next, AsSize;
    PushGives(cfg, s, t);
    hide Enabled;
    p' := p[s.pcs[t].node := InQueue];
    var n := s.pcs[t].node;
    CarriedFacts(cfg, s, p, t, n);
    ModeFacts(cfg, s, p, t);
    assert s.counts[n := RECYCLED] == s.counts;
    CarryOff(s.pcs, p, s.counts, t, n, InQueue, RECYCLED);
    UnheldPut(s.counts, s.handles, p, n, InQueue, RECYCLED);
    RestCountPut(s.counts, p, n, InQueue, RECYCLED);
    QueuePush(s.queue, p, n);
    HistoryOther(s.gone, s.lost, p, n, InQueue);
    InUsePut(p, n, InQueue);
    PutSize(p, n, InQueue);
    ThreadRest(s.pcs, s.handles, s.recycler, t);
    LastKeep(s.pcs, s.recycler, s.freed, p, p[n := InQueue], t, Missed);
  }

  lemma PushGives(cfg: Config, s: Pool, t: Thread)
    requires cfg.Defined() && Enabled(s, Push(t))
    ensures t in s.pcs && s.pcs[t].Uncounted? && s.fault == Clear
    ensures Next(cfg, s, Push(t)) == DoPush(cfg, s, t)
  {
    hide DoPush;
  }

  // ---------------------------------------------------------------------------------------------
  // Acquiring

  lemma AcquireKeeps(cfg: Config, s: Pool, p: Places, t: Thread, into: Handle)
    returns (p': Places)
    requires cfg.Defined() && Inv(cfg, s, p) && Enabled(s, Action.Acquire(t, into))
    ensures Inv(cfg, Next(cfg, s, Action.Acquire(t, into)), p')
  {
    hide QueueInv, HandleInv, HeldCountInv, RestCountInv, CarryCountInv, CarryInv, GrowInv, CopyInv, LastInv, ModeInv;
    hide HistoryInv, CallInv;
    p' := if s.queue == [] then p else p[s.queue[0] := Held];
    if s.queue == [] {
      CarryPlain(s.pcs, p, s.counts, s.counts, t, Missed);
      ThreadGo(s.pcs, s.handles, s.recycler, t, Missed);
      LastKeep(s.pcs, s.recycler, s.freed, p, p, t, Missed);
    } else {
      AcquireIdleKeeps(cfg, s, p, t, into);
    }
  }

  lemma AcquireIdleKeeps(cfg: Config, s: Pool, p: Places, t: Thread, into: Handle)
    requires Inv(cfg, s, p) && Enabled(s, Action.Acquire(t, into)) && s.queue != []
    ensures Inv(cfg, DoAcquire(s, t, into), p[s.queue[0] := Held])
  {
    hide QueueInv, HandleInv, HeldCountInv, RestCountInv, CarryCountInv, CarryInv, GrowInv, CopyInv, LastInv, ModeInv;
    hide HistoryInv, CallInv;
    var n := s.queue[0];
    QueuedFacts(cfg, s, p, n);
    QueuePop(s.queue, p);
    HeldCountNew(s.counts, s.handles, p, into, n);
    RestCountPut(s.counts, p, n, Held, 1);
    HistoryOther(s.gone, s.lost, p, n, Held);
    InUsePut(p, n, Held);
    PutSize(p, n, Held);
    CarryUntouched(s.pcs, p, s.counts, n, Held, 1);
    CopiesSurvive(s.pcs, s.handles, into, n);
    LastKeep(s.pcs, s.recycler, s.freed, p, p[n := Held], t, Missed);
    assert s.pcs - {t} == s.pcs;
  }

  lemma LoadUsageKeeps(cfg: Config, s: Pool, p: Places, t: Thread)
    requires cfg.Defined() && Inv(cfg, s, p) && Enabled(s, LoadUsage(t))
    ensures Inv(cfg, Next(cfg, s, LoadUsage(t)), p)
  {
    hide QueueInv, HandleInv, HeldCountInv, RestCountInv, CarryCountInv, CarryInv, GrowInv, CopyInv, LastInv, ModeInv;
    hide HistoryInv, CallInv;
    ModeFacts(cfg, s, p, t);
    if s.usage <= 0 {
      CarryPlain(s.pcs, p, s.counts, s.counts, t, Missed);
      ThreadRest(s.pcs, s.handles, s.recycler, t);
      LastKeep(s.pcs, s.recycler, s.freed, p, p, t, Missed);
    } else {
      var pc := Growing(s.usage, s.usage, [], None);
      CarryPlain(s.pcs, p, s.counts, s.counts, t, pc);
      ThreadGo(s.pcs, s.handles, s.recycler, t, pc);
      LastKeep(s.pcs, s.recycler, s.freed, p, p, t, pc);
    }
  }

  function Grown(pc: Pc, n: Node): Pc
    requires pc.Growing? && pc.left > 0
  {
    if pc.left == 2 then Growing(pc.want, 1, pc.spare, Some(n))
    else Growing(pc.want, pc.left - 1, pc.spare + [n], pc.result)
  }

  lemma GrownShape(pc: Pc, n: Node)
    requires pc.Growing? && pc.left > 0 && GrowShape(pc) && n !in Carried(pc)
    ensures GrowShape(Grown(pc, n)) && Carried(Grown(pc, n)) == Carried(pc) + {n}
  {
    assert Elements(pc.spare + [n]) == Elements(pc.spare) + {n};
  }

  /** A growing thread gets one more node to carry. */
  lemma CarryMore(pcs: map<Thread, Pc>, p: Places, counts: map<Node, int>, t: Thread, pc: Pc, n: Node)
    requires p.Keys == counts.Keys && CarryAll(counts, pcs, p) && t in pcs && pcs[t].Growing? && pc.Growing?
    requires Carried(pc) == Carried(pcs[t]) + {n} && n !in p
    ensures CarryAll(counts[n := RECYCLED], pcs[t := pc], p[n := With(t, false)])
  {
    hide CarryAll, OthersKeep, NowCarries;
    OthersUntouched(pcs, p, counts, t, n);
    MoreCarried(pcs, p, counts, t, pc, n);
    CarryGoes(counts, counts[n := RECYCLED], pcs, p, p[n := With(t, false)], t, pc);
  }

  lemma OthersUntouched(pcs: map<Thread, Pc>, p: Places, counts: map<Node, int>, t: Thread, n: Node)
    requires p.Keys == counts.Keys && n !in p
    ensures OthersKeep(p, p[n := With(t, false)], counts, counts[n := RECYCLED], t)
  {
  }

  lemma MoreCarried(pcs: map<Thread, Pc>, p: Places, counts: map<Node, int>, t: Thread, pc: Pc, n: Node)
    requires p.Keys == counts.Keys && CarryAll(counts, pcs, p) && t in pcs && pcs[t].Growing? && pc.Growing?
    requires Carried(pc) == Carried(pcs[t]) + {n} && n !in p
    ensures NowCarries(p[n := With(t, false)], counts[n := RECYCLED], t, pc)
  {
    hide Carried;
  }

  lemma HistoryNew(gone: set<Node>, lost: set<Node>, p: Places, n: Node, t: Thread)
    requires HistoryInv(gone, lost, p) && n !in p && n !in gone && |p| + 1 < SIZE_T
    ensures HistoryInv(gone, lost, p[n := With(t, false)])
  {
    PutSize(p, n, With(t, false));
  }

  lemma SameSize(p: Places, counts: map<Node, int>)
    requires p.Keys == counts.Keys
    ensures |p| == |counts|
  {
    assert |p| == |p.Keys| && |counts| == |counts.Keys|;
  }

  lemma CarriedLive(cfg: Config, s: Pool, p: Places, t: Thread)
    requires Inv(cfg, s, p) && t in s.pcs
    ensures Carried(s.pcs[t]) <= p.Keys
  {
    forall n | n in Carried(s.pcs[t])
      ensures n in p
    {
      CarriedFacts(cfg, s, p, t, n);
    }
  }

  lemma CreateNodeKeeps(cfg: Config, s: Pool, p: Places, t: Thread, n: Node)
    returns (p': Places)
    requires cfg.Defined() && Inv(cfg, s, p) && Enabled(s, CreateNode(t, n))
    ensures Inv(cfg, Next(cfg, s, CreateNode(t, n)), p')
  {
    hide QueueInv, HandleInv, HeldCountInv, RestCountInv, CarryCountInv, CarryInv, GrowInv, CopyInv;
    hide LastInv, ModeInv, HistoryInv, CallInv, Next, GrowShape, Elements, Carried, InUse;
    CreateNodeGives(cfg, s, t, n);
    hide Enabled;
    p' := p[n := With(t, false)];
    ModeFacts(cfg, s, p, t);
    CarriedLive(cfg, s, p, t);
    var pc := Grown(s.pcs[t], n);
    GrownShape(s.pcs[t], n);
    SameSize(p, s.counts);
    CarryMore(s.pcs, p, s.counts, t, pc, n);
    UnheldPut(s.counts, s.handles, p, n, With(t, false), RECYCLED);
    RestCountPut(s.counts, p, n, With(t, false), RECYCLED);
    QueueOther(s.queue, p, n, With(t, false));
    HistoryNew(s.gone, s.lost, p, n, t);
    InUsePut(p, n, With(t, false));
    PutSize(p, n, With(t, false));
    ThreadGo(s.pcs, s.handles, s.recycler, t, pc);
    LastKeep(s.pcs, s.recycler, s.freed, p, p[n := With(t, false)], t, pc);
    CallsGrow(cfg, s.recycler, s.shrinks, |p|);
  }

  lemma CreateNodeGives(cfg: Config, s: Pool, t: Thread, n: Node)
    requires cfg.Defined() && Enabled(s, CreateNode(t, n))
    ensures t in s.pcs && s.pcs[t].Growing? && s.pcs[t].left > 0 && s.fault == Clear
    ensures n !in s.counts && n !in s.gone && |s.counts| + 1 < SIZE_T
    ensures !s.freed ==>
              Next(cfg, s, CreateNode(t, n)) ==
              s.(counts := s.counts[n := RECYCLED], block := s.block + 1, pcs := s.pcs[t := Grown(s.pcs[t], n)])
  {
  }

  lemma AddUsageKeeps(cfg: Config, s: Pool, p: Places, t: Thread)
    returns (p': Places)
    requires cfg.Defined() && Inv(cfg, s, p) && Enabled(s, AddUsage(t))
    ensures Inv(cfg, Next(cfg, s, AddUsage(t)), p')
  {
    hide QueueInv, HandleInv, HeldCountInv, RestCountInv, CarryCountInv, CarryInv, GrowInv, CopyInv, LastInv, ModeInv;
    hide HistoryInv, CallInv;
    p' := p[s.pcs[t].node := With(t, true)];
    CarriedFlag(cfg, s, p, t, s.pcs[t].node, Counted(s.pcs[t].node));
  }

  lemma HandOutKeeps(cfg: Config, s: Pool, p: Places, t: Thread, into: Handle)
    returns (p': Places)
    requires cfg.Defined() && Inv(cfg, s, p) && Enabled(s, HandOut(t, into))
    ensures Inv(cfg, Next(cfg, s, HandOut(t, into)), p')
  {
    hide QueueInv, HandleInv, HeldCountInv, RestCountInv, CarryCountInv, CarryInv, GrowInv, CopyInv;
    hide LastInv, ModeInv, HistoryInv, CallInv, Next;
    HandOutGives(cfg, s, t, into);
    hide Enabled;
    p' := p[s.pcs[t].node := Held];
    var n := s.pcs[t].node;
    CarriedFacts(cfg, s, p, t, n);
    HeldCountNew(s.counts, s.handles, p, into, n);
    RestCountPut(s.counts, p, n, Held, 1);
    QueueOther(s.queue, p, n, Held);
    HistoryOther(s.gone, s.lost, p, n, Held);
    InUsePut(p, n, Held);
    PutSize(p, n, Held);
    CarryOff(s.pcs, p, s.counts, t, n, Held, 1);
    CopiesSurvive(s.pcs, s.handles, into, n);
    ThreadRest(s.pcs, s.handles[into := n], s.recycler, t);
    LastKeep(s.pcs, s.recycler, s.freed, p, p[n := Held], t, Missed);
  }

  lemma HandOutGives(cfg: Config, s: Pool, t: Thread, into: Handle)
    requires cfg.Defined() && Enabled(s, HandOut(t, into))
    ensures t in s.pcs && s.pcs[t].Counted? && s.fault == Clear && into !in s.handles
    ensures var n := s.pcs[t].node;
            n in s.counts && s.counts[n] == RECYCLED ==>
              Next(cfg, s, HandOut(t, into)) ==
              s.(counts := s.counts[n := 1], handles := s.handles[into := n], pcs := s.pcs - {t})
  {
  }

  // ---------------------------------------------------------------------------------------------
  // Publishing what growth created

  function PlaceAll(p: Places, ns: set<Node>, at: Place): Places {
    map n | n in p :: if n in ns then at else p[n]
  }

  /** The spare nodes of a growth, which the growing thread alone carries. */
  ghost predicate SpareOf(counts: map<Node, int>, p: Places, ns: set<Node>, t: Thread)
    requires p.Keys == counts.Keys
  {
    forall n | n in ns :: n in p && p[n] == With(t, false) && counts[n] == RECYCLED
  }

  lemma SpareFacts(cfg: Config, s: Pool, p: Places, t: Thread)
    requires Inv(cfg, s, p) && t in s.pcs && s.pcs[t].Growing?
    ensures SpareOf(s.counts, p, Elements(s.pcs[t].spare), t)
  {
    forall n | n in Elements(s.pcs[t].spare)
      ensures n in p && p[n] == With(t, false) && s.counts[n] == RECYCLED
    {
      CarriedFacts(cfg, s, p, t, n);
    }
  }

  lemma PlaceAllSize(p: Places, ns: set<Node>, at: Place)
    ensures PlaceAll(p, ns, at).Keys == p.Keys && |PlaceAll(p, ns, at)| == |p|
  {
    assert PlaceAll(p, ns, at).Keys == p.Keys;
  }

  lemma SpareQueued(queue: seq<Node>, counts: map<Node, int>, p: Places, spare: seq<Node>, t: Thread)
    requires p.Keys == counts.Keys && QueueInv(queue, p) && SpareOf(counts, p, Elements(spare), t) && Distinct(spare)
    ensures QueueInv(queue + spare, PlaceAll(p, Elements(spare), InQueue))
  {
    var p' := PlaceAll(p, Elements(spare), InQueue);
    forall n
      ensures n in queue + spare <==> n in p' && p'[n] == InQueue
    {
      assert n in spare <==> n in Elements(spare);
    }
    forall i, j | 0 <= i < j < |queue + spare|
      ensures (queue + spare)[i] != (queue + spare)[j]
    {
      if i < |queue| <= j {
        assert queue[i] in queue && spare[j - |queue|] in Elements(spare);
      }
    }
  }

  lemma SpareNotQueued(queue: seq<Node>, counts: map<Node, int>, p: Places, ns: set<Node>, t: Thread)
    requires p.Keys == counts.Keys && QueueInv(queue, p) && SpareOf(counts, p, ns, t)
    ensures QueueInv(queue, PlaceAll(p, ns, Lost))
  {
  }

  lemma SpareUnheld(counts: map<Node, int>, handles: map<Handle, Node>, p: Places, ns: set<Node>, t: Thread, at: Place)
    requires p.Keys == counts.Keys && HandleInv(handles, p) && HeldCountInv(counts, handles, p)
    requires SpareOf(counts, p, ns, t) && (at == InQueue || at == Lost)
    ensures PlaceAll(p, ns, at).Keys == p.Keys
    ensures HandleInv(handles, PlaceAll(p, ns, at)) && HeldCountInv(counts, handles, PlaceAll(p, ns, at))
  {
    PlaceAllSize(p, ns, at);
  }

  lemma SpareRests(counts: map<Node, int>, p: Places, ns: set<Node>, t: Thread, at: Place)
    requires p.Keys == counts.Keys && RestCountInv(counts, p) && SpareOf(counts, p, ns, t)
    ensures PlaceAll(p, ns, at).Keys == p.Keys && RestCountInv(counts, PlaceAll(p, ns, at))
  {
    PlaceAllSize(p, ns, at);
  }

  lemma SpareUsage(counts: map<Node, int>, p: Places, ns: set<Node>, t: Thread, at: Place)
    requires p.Keys == counts.Keys && SpareOf(counts, p, ns, t) && (at == InQueue || at == Lost)
    ensures InUseNodes(PlaceAll(p, ns, at)) == InUseNodes(p)
  {
  }

  lemma SpareHistory(gone: set<Node>, lost: set<Node>, counts: map<Node, int>, p: Places, ns: set<Node>, t: Thread)
    requires p.Keys == counts.Keys && HistoryInv(gone, lost, p) && SpareOf(counts, p, ns, t)
    ensures HistoryInv(gone, lost, PlaceAll(p, ns, InQueue)) && HistoryInv(gone, lost + ns, PlaceAll(p, ns, Lost))
  {
    PlaceAllSize(p, ns, InQueue);
    PlaceAllSize(p, ns, Lost);
  }

  lemma SpareLeaves(pcs: map<Thread, Pc>, p: Places, counts: map<Node, int>, t: Thread, pc: Pc, at: Place)
    requires p.Keys == counts.Keys && CarryAll(counts, pcs, p)
    requires t in pcs && pcs[t].Growing? && (at == InQueue || at == Lost)
    requires pcs[t].result.Some? ==> pcs[t].result.value !in pcs[t].spare
    requires Carried(pc) == (if pcs[t].result.Some? then {pcs[t].result.value} else {}) && !InUse(pc) &&
             CarriedCount(pc) == RECYCLED
    ensures var p' := PlaceAll(p, Elements(pcs[t].spare), at);
            p'.Keys == p.Keys && CarryAll(counts, pcs[t := pc], p') &&
            (Carried(pc) == {} ==> CarryAll(counts, pcs - {t}, p'))
  {
    var p' := PlaceAll(p, Elements(pcs[t].spare), at);
    PlaceAllSize(p, Elements(pcs[t].spare), at);
    SpareNowCarries(pcs, p, counts, t, pc, at);
    hide CarryInv, CarryCountInv, NowCarries;
    CarryGo(pcs, p, p', counts, counts, t, pc);
  }

  lemma SpareNowCarries(pcs: map<Thread, Pc>, p: Places, counts: map<Node, int>, t: Thread, pc: Pc, at: Place)
    requires p.Keys == counts.Keys && CarryAll(counts, pcs, p)
    requires t in pcs && pcs[t].Growing? && (at == InQueue || at == Lost)
    requires pcs[t].result.Some? ==> pcs[t].result.value !in pcs[t].spare
    requires Carried(pc) == (if pcs[t].result.Some? then {pcs[t].result.value} else {}) && !InUse(pc) &&
             CarriedCount(pc) == RECYCLED
    ensures var p' := PlaceAll(p, Elements(pcs[t].spare), at);
            p'.Keys == counts.Keys && NowCarries(p', counts, t, pc) && OthersKeep(p, p', counts, counts, t)
  {
    hide CarryInv, CarryCountInv, Carried, Elements, PlaceAll, NowCarries, OthersKeep;
    var spare := Elements(pcs[t].spare);
    PlaceAllSize(p, spare, at);
    GrowerCarries(pcs, p, counts, t);
    GrowerSplits(pcs[t]);
    SpareGoes(p, counts, t, spare, at);
    RestStays(p, counts, t, pc, spare, at);
  }

  lemma SpareGoes(p: Places, counts: map<Node, int>, t: Thread, spare: set<Node>, at: Place)
    requires p.Keys == counts.Keys && (at == InQueue || at == Lost) && forall n | n in spare ::
               n in p && p[n] == With(t, false)
    ensures PlaceAll(p, spare, at).Keys == counts.Keys && OthersKeep(p, PlaceAll(p, spare, at), counts, counts, t)
  {
  }

  lemma RestStays(p: Places, counts: map<Node, int>, t: Thread, pc: Pc, spare: set<Node>, at: Place)
    requires p.Keys == counts.Keys && (at == InQueue || at == Lost) && spare !! Carried(pc)
    requires !InUse(pc) && CarriedCount(pc) == RECYCLED
    requires forall n | n in Carried(pc) :: n in p && p[n] == With(t, false) && counts[n] == RECYCLED
    requires forall n | n in p && p[n].With? && p[n].t == t :: n in spare + Carried(pc)
    ensures PlaceAll(p, spare, at).Keys == counts.Keys && NowCarries(PlaceAll(p, spare, at), counts, t, pc)
  {
    hide Carried, InUse, CarriedCount;
  }

  lemma GrowerSplits(pc: Pc)
    requires pc.Growing? && (pc.result.Some? ==> pc.result.value !in pc.spare)
    ensures Carried(pc) == Elements(pc.spare) + if pc.result.Some? then {pc.result.value} else {}
    ensures pc.result.Some? ==> pc.result.value !in Elements(pc.spare)
  {
  }

  lemma GrowerCarries(pcs: map<Thread, Pc>, p: Places, counts: map<Node, int>, t: Thread)
    requires p.Keys == counts.Keys && CarryAll(counts, pcs, p) && t in pcs && pcs[t].Growing?
    ensures forall n | n in Carried(pcs[t]) :: n in p && p[n] == With(t, false) && counts[n] == RECYCLED
    ensures forall n | n in p && p[n].With? && p[n].t == t :: n in Carried(pcs[t])
  {
    hide Carried;
  }

  lemma PublishKeeps(cfg: Config, s: Pool, p: Places, t: Thread)
    returns (p': Places)
    requires cfg.Defined() && Inv(cfg, s, p) && Enabled(s, Publish(t))
    ensures Inv(cfg, Next(cfg, s, Publish(t)), p')
  {
    hide Inv;
    var pc := s.pcs[t];
    p' := PlaceAll(p, Elements(pc.spare), if pc.result.None? then Lost else InQueue);
    if pc.result.None? {
      PublishLoses(cfg, s, p, t, pc.want, pc.spare);
    } else {
      PublishQueues(cfg, s, p, t, pc.want, pc.spare, pc.result.value);
    }
  }

  lemma PublishGives(cfg: Config, s: Pool, t: Thread)
    requires cfg.Defined() && Enabled(s, Publish(t))
    ensures t in s.pcs && s.pcs[t].Growing? && s.pcs[t].left == 0 && s.fault == Clear
    ensures var pc := s.pcs[t];
            Next(cfg, s, Publish(t)) ==
            if pc.result.None? then s.(lost := s.lost + Elements(pc.spare), pcs := s.pcs - {t})
            else s.(queue := s.queue + pc.spare, pcs := s.pcs[t := Published(pc.result.value)])
  {
    hide Elements;
  }

  /** What both outcomes have in common. */
  lemma SparePlaced(cfg: Config, s: Pool, p: Places, t: Thread, at: Place)
    requires Inv(cfg, s, p) && t in s.pcs && s.pcs[t].Growing? && s.pcs[t].left == 0
    requires at == if s.pcs[t].result.None? then Lost else InQueue
    ensures var pc := s.pcs[t];
            var ns := Elements(pc.spare);
            var after := if pc.result.None? then Missed else Published(pc.result.value);
            var p' := PlaceAll(p, ns, at);
            s.recycler && p'.Keys == p.Keys && |p'| == |p| && SpareOf(s.counts, p, ns, t) && Distinct(pc.spare) &&
            HandleInv(s.handles, p') && HeldCountInv(s.counts, s.handles, p') && RestCountInv(s.counts, p') &&
            InUseNodes(p') == InUseNodes(p) && LastInv(s.pcs[t := after], s.recycler, s.freed, p') &&
            LastInv(s.pcs - {t}, s.recycler, s.freed, p') && CarryAll(s.counts, s.pcs[t := after], p') &&
            (pc.result.None? ==> CarryAll(s.counts, s.pcs - {t}, p')) &&
            HistoryInv(s.gone, if at == Lost then s.lost + ns else s.lost, p')
  {
    hide QueueInv, HandleInv, HeldCountInv, RestCountInv, CarryCountInv, CarryInv, GrowInv, CopyInv;
    hide LastInv, ModeInv, ReaperInv, HistoryInv, CallInv, UsageInv, BlockInv;
    var pc := s.pcs[t];
    var ns := Elements(pc.spare);
    var after := if pc.result.None? then Missed else Published(pc.result.value);
    ModeFacts(cfg, s, p, t);
    SpareFacts(cfg, s, p, t);
    PlaceAllSize(p, ns, at);
    SpareUnheld(s.counts, s.handles, p, ns, t, at);
    SpareRests(s.counts, p, ns, t, at);
    SpareUsage(s.counts, p, ns, t, at);
    SpareHistory(s.gone, s.lost, s.counts, p, ns, t);
    SpareLeaves(s.pcs, p, s.counts, t, after, at);
    LastKeep(s.pcs, s.recycler, s.freed, p, PlaceAll(p, ns, at), t, after);
  }

  lemma PublishLoses(cfg: Config, s: Pool, p: Places, t: Thread, want: nat, spare: seq<Node>)
    requires t in s.pcs && s.pcs[t] == Growing(want, 0, spare, None)
    requires cfg.Defined() && Inv(cfg, s, p) && Enabled(s, Publish(t))
    ensures Inv(cfg, Next(cfg, s, Publish(t)), PlaceAll(p, Elements(spare), Lost))
  {
    hide QueueInv, HandleInv, HeldCountInv, RestCountInv, CarryCountInv, CarryInv, GrowInv, CopyInv;
    hide LastInv, ModeInv, ReaperInv, HistoryInv, CallInv, Next, Enabled;
    hide PlaceAll, Elements, InUseNodes, SpareOf;
    PublishGives(cfg, s, t);
    SparePlaced(cfg, s, p, t, Lost);
    SpareNotQueued(s.queue, s.counts, p, Elements(s.pcs[t].spare), t);
    ReaperSame(cfg, s, p, PlaceAll(p, Elements(s.pcs[t].spare), Lost), s.queue);
    ThreadRest(s.pcs, s.handles, s.recycler, t);
  }

  lemma PublishQueues(cfg: Config, s: Pool, p: Places, t: Thread, want: nat, spare: seq<Node>, n: Node)
    requires t in s.pcs && s.pcs[t] == Growing(want, 0, spare, Some(n))
    requires cfg.Defined() && Inv(cfg, s, p) && Enabled(s, Publish(t))
    ensures Inv(cfg, Next(cfg, s, Publish(t)), PlaceAll(p, Elements(spare), InQueue))
  {
    hide QueueInv, HandleInv, HeldCountInv, RestCountInv, CarryCountInv, CarryInv, GrowInv, CopyInv;
    hide LastInv, ModeInv, ReaperInv, HistoryInv, CallInv, Next, Enabled;
    hide PlaceAll, Elements, InUseNodes, SpareOf;
    PublishGives(cfg, s, t);
    SparePlaced(cfg, s, p, t, InQueue);
    SpareQueued(s.queue, s.counts, p, s.pcs[t].spare, t);
    ReaperSame(cfg, s, p, PlaceAll(p, Elements(s.pcs[t].spare), InQueue), s.queue + s.pcs[t].spare);
    ThreadGo(s.pcs, s.handles, s.recycler, t, Published(s.pcs[t].result.value));
  }

  /** A live pool's shrink does not depend on its queue. */
  lemma ReaperSame(cfg: Config, s: Pool, p: Places, p': Places, queue: seq<Node>)
    requires ReaperInv(cfg, true, s.shrinking, s.reaper, s.queue, p) && |p'| == |p|
    ensures ReaperInv(cfg, true, s.shrinking, s.reaper, queue, p')
  {
  }

  // ---------------------------------------------------------------------------------------------
  // Freeing nodes

  /** Freed nodes are neither held nor lost. */
  ghost predicate Freeable(p: Places, ns: set<Node>) {
    forall n | n in ns :: n in p && p[n] != Held && p[n] != Lost
  }

  lemma FreeResting(counts: map<Node, int>, handles: map<Handle, Node>, p: Places, ns: set<Node>)
    requires p.Keys == counts.Keys && Freeable(p, ns)
    requires HandleInv(handles, p) && HeldCountInv(counts, handles, p) && RestCountInv(counts, p)
    ensures (p - ns).Keys == (counts - ns).Keys
    ensures HandleInv(handles, p - ns) && HeldCountInv(counts - ns, handles, p - ns) &&
            RestCountInv(counts - ns, p - ns)
  {
  }

  lemma FreeHistory(gone: set<Node>, lost: set<Node>, p: Places, ns: set<Node>)
    requires HistoryInv(gone, lost, p) && Freeable(p, ns)
    ensures HistoryInv(gone + ns, lost, p - ns)
  {
    RemoveSize(p, ns);
  }

  lemma FreeUnused(p: Places, ns: set<Node>)
    requires forall n | n in ns :: n in p && p[n] == InQueue
    ensures InUseNodes(p - ns) == InUseNodes(p)
  {
  }

  lemma FreeUncarried(pcs: map<Thread, Pc>, p: Places, counts: map<Node, int>, ns: set<Node>)
    requires p.Keys == counts.Keys && CarryAll(counts, pcs, p)
    requires forall n | n in ns :: n in p && p[n] == InQueue
    ensures (p - ns).Keys == (counts - ns).Keys && CarryAll(counts - ns, pcs, p - ns)
  {
  }

  lemma FreePrefix(queue: seq<Node>, p: Places, k: nat)
    requires QueueInv(queue, p) && k <= |queue|
    ensures forall n | n in Elements(queue[..k]) :: n in p && p[n] == InQueue
    ensures QueueInv(queue[k..], p - Elements(queue[..k])) && |Elements(queue[..k])| == k
  {
    DistinctSize(queue[..k]);
    assert queue == queue[..k] + queue[k..];
    forall n
      ensures n in queue[k..] <==> n in p - Elements(queue[..k]) && p[n] == InQueue
    {
      assert n in queue <==> n in queue[..k] || n in queue[k..];
    }
  }

  lemma AllLive(counts: map<Node, int>, p: Places, ns: seq<Node>)
    requires p.Keys == counts.Keys && forall n | n in Elements(ns) :: n in p
    ensures !exists n | n in ns :: n !in counts
  {
    forall n | n in ns
      ensures n in counts
    {
      assert n in Elements(ns);
    }
  }

  /** The part of a free of queued nodes that does not depend on who frees. */
  lemma FreeQueuedKeeps(cfg: Config, s: Pool, p: Places, k: nat)
    requires Inv(cfg, s, p) && s.recycler && k <= |s.queue|
    ensures var ns := Elements(s.queue[..k]);
            var p' := p - ns;
            var f := FreeNodes(s, s.queue[..k]);
            f == s.(counts := s.counts - ns, gone := s.gone + ns, block := s.block - k) &&
            p'.Keys == f.counts.Keys && |p'| == |p| - k &&
            QueueInv(s.queue[k..], p') && HandleInv(s.handles, p') && HeldCountInv(f.counts, s.handles, p') &&
            RestCountInv(f.counts, p') && CarryAll(f.counts, s.pcs, p') && InUseNodes(p') == InUseNodes(p) &&
            HistoryInv(f.gone, s.lost, p') && f.block == |p'| + 1
  {
    hide QueueInv, HandleInv, HeldCountInv, RestCountInv, CarryCountInv, CarryInv, GrowInv, CopyInv, LastInv, ModeInv;
    hide HistoryInv, CallInv;
    var ns := Elements(s.queue[..k]);
    FreePrefix(s.queue, p, k);
    AllLive(s.counts, p, s.queue[..k]);
    RemoveSize(p, ns);
    FreeResting(s.counts, s.handles, p, ns);
    FreeHistory(s.gone, s.lost, p, ns);
    FreeUnused(p, ns);
    FreeUncarried(s.pcs, p, s.counts, ns);
  }

  /** Nodes freed by one shrink are remembered by the others. */
  lemma CallsAge(cfg: Config, shrinks: map<Call, Pending>, live: nat, k: nat)
    requires CallInv(cfg, true, shrinks, live) && k <= live
    ensures CallInv(cfg, true, AgedCalls(shrinks, k), live - k)
  {
  }

  lemma CallsGrow(cfg: Config, recycler: bool, shrinks: map<Call, Pending>, live: nat)
    requires CallInv(cfg, recycler, shrinks, live)
    ensures CallInv(cfg, recycler, shrinks, live + 1)
  {
  }

  lemma CallsEnd(cfg: Config, shrinks: map<Call, Pending>, c: Call, live: nat)
    requires CallInv(cfg, true, shrinks, live)
    ensures CallInv(cfg, true, shrinks - {c}, live)
  {
  }

  lemma CallsOfTheDead(cfg: Config, shrinks: map<Call, Pending>, live: nat, live': nat)
    requires shrinks == map[] || CallInv(cfg, false, shrinks, live)
    ensures CallInv(cfg, false, shrinks, live')
  {
  }

  lemma ShrinkDeleteKeeps(cfg: Config, s: Pool, p: Places)
    returns (p': Places)
    requires cfg.Defined() && Inv(cfg, s, p) && Enabled(s, ShrinkDelete)
    ensures Inv(cfg, Next(cfg, s, ShrinkDelete), p')
  {
    hide QueueInv, HandleInv, HeldCountInv, RestCountInv, CarryCountInv, CarryInv, GrowInv, CopyInv, LastInv, ModeInv;
    hide HistoryInv, CallInv;
    hide FreeNodes, Elements, InUseNodes, AgedCalls, ReaperInv, Next, Covered, Decides, Enabled;
    ShrinkDeleteNeeds(s);
    var k := Min(s.reaper.due.num, |s.queue|);
    p' := p - Elements(s.queue[..k]);
    FreeQueuedKeeps(cfg, s, p, k);
    ShrinkDeleteGives(cfg, s, k);
    ReaperFinishes(cfg, s.shrinking, s.reaper, s.queue, k, p, p');
    LastKeepAll(s.pcs, s.freed, p, p');
    CallsAge(cfg, s.shrinks, |p|, k);
  }

  lemma ShrinkDeleteNeeds(s: Pool)
    requires Enabled(s, ShrinkDelete)
    ensures s.recycler && s.reaper.Doomed? && s.fault == Clear
  {
  }

  lemma ShrinkDeleteGives(cfg: Config, s: Pool, k: nat)
    requires cfg.Defined() && Enabled(s, ShrinkDelete) && k == Min(s.reaper.due.num, |s.queue|)
    requires FreeNodes(s, s.queue[..k]).fault == Clear
    ensures Next(cfg, s, ShrinkDelete) ==
            FreeNodes(s, s.queue[..k]).(queue := s.queue[k..], shrinks := AgedCalls(s.shrinks, k), reaper := Finished)
  {
    hide FreeNodes, AgedCalls;
  }

  lemma ReaperFinishes(cfg: Config, shrinking: bool, reaper: Reaper, queue: seq<Node>, k: nat, p: Places, p': Places)
    requires ReaperInv(cfg, true, shrinking, reaper, queue, p) && reaper.Doomed? && k <= |queue|
    ensures ReaperInv(cfg, true, shrinking, Finished, queue[k..], p')
  {
  }

  lemma CallDeleteKeeps(cfg: Config, s: Pool, p: Places, c: Call)
    returns (p': Places)
    requires cfg.Defined() && Inv(cfg, s, p) && Enabled(s, CallDelete(c))
    ensures Inv(cfg, Next(cfg, s, CallDelete(c)), p')
  {
    hide QueueInv, HandleInv, HeldCountInv, RestCountInv, CarryCountInv, CarryInv, GrowInv, CopyInv;
    hide LastInv, ModeInv, ReaperInv, HistoryInv, CallInv, FreeNodes, Elements, InUseNodes, AgedCalls, AgedReaper, Next;
    CallDeleteNeeds(s, c);
    var k := Min(s.shrinks[c].num, |s.queue|);
    p' := p - Elements(s.queue[..k]);
    FreeQueuedKeeps(cfg, s, p, k);
    CallDeleteGives(cfg, s, c, k);
    hide Enabled;
    LastKeepAll(s.pcs, s.freed, p, p');
    ReaperAges(cfg, s.shrinking, s.reaper, s.queue, k, p, p');
    CallsEnd(cfg, s.shrinks, c, |p|);
    CallsAge(cfg, s.shrinks - {c}, |p|, k);
  }

  lemma CallDeleteNeeds(s: Pool, c: Call)
    requires Enabled(s, CallDelete(c))
    ensures s.recycler && c in s.shrinks && s.fault == Clear
  {
  }

  lemma CallDeleteGives(cfg: Config, s: Pool, c: Call, k: nat)
    requires cfg.Defined() && Enabled(s, CallDelete(c)) && k == Min(s.shrinks[c].num, |s.queue|)
    requires FreeNodes(s, s.queue[..k]).fault == Clear
    ensures Next(cfg, s, CallDelete(c)) ==
            FreeNodes(s, s.queue[..k]).(queue := s.queue[k..], shrinks := AgedCalls(s.shrinks - {c}, k),
              reaper := AgedReaper(s.reaper, k))
  {
    hide FreeNodes, AgedCalls, AgedReaper;
  }

  /** A pending background shrink stays covered when another one frees `k` nodes. */
  lemma ReaperAges(cfg: Config, shrinking: bool, reaper: Reaper, queue: seq<Node>, k: nat, p: Places, p': Places)
    requires ReaperInv(cfg, true, shrinking, reaper, queue, p) && k <= |queue| && |p'| == |p| - k
    ensures ReaperInv(cfg, true, shrinking, AgedReaper(reaper, k), queue[k..], p')
  {
  }

  lemma ShrinkDoneKeeps(cfg: Config, s: Pool, p: Places)
    requires cfg.Defined() && Inv(cfg, s, p) && Enabled(s, ShrinkDone)
    ensures Inv(cfg, Next(cfg, s, ShrinkDone), p)
  {
    hide QueueInv, HandleInv, HeldCountInv, RestCountInv, CarryCountInv, CarryInv, GrowInv, CopyInv, LastInv, ModeInv;
    hide HistoryInv, CallInv;
  }

  lemma LastKeepAll(pcs: map<Thread, Pc>, freed: bool, p: Places, p': Places)
    requires LastInv(pcs, true, freed, p)
    ensures LastInv(pcs, true, freed, p')
  {
  }

  /** Queue and usage never count more nodes than are alive. */
  lemma TotalBelowLive(queue: seq<Node>, p: Places)
    requires QueueInv(queue, p)
    ensures |queue| + |InUseNodes(p)| <= |p|
  {
    DistinctSize(queue);
    var resting := Elements(queue);
    assert resting !! InUseNodes(p) && resting + InUseNodes(p) <= p.Keys;
    SubsetSize(resting + InUseNodes(p), p.Keys);
  }

  /** A decision leaves 64 of the live nodes. */
  lemma DecisionIsCovered(cfg: Config, s: Pool, p: Places)
    requires cfg.Defined() && Inv(cfg, s, p) && s.recycler && s.fault == Clear
    ensures var num := Decision(cfg, s);
            num > 0 ==> Covered(cfg, Pending(num, 0), |p|) && Decides(cfg)
  {
    hide QueueInv, HandleInv, HeldCountInv, RestCountInv, CarryCountInv, CarryInv, GrowInv, CopyInv, LastInv, ModeInv;
    hide HistoryInv, CallInv, ShrinkNum, InUseNodes;
    TotalBelowLive(s.queue, p);
    SnapshotSize(s.gone, s.lost, p);
    if cfg.Sane() {
      ShrinkLeavesFloor(cfg, s.usage, |s.queue| + s.usage);
    }
  }

  lemma ShrinkSnapshotKeeps(cfg: Config, s: Pool, p: Places)
    requires cfg.Defined() && Inv(cfg, s, p) && Enabled(s, ShrinkSnapshot)
    ensures Inv(cfg, Next(cfg, s, ShrinkSnapshot), p)
  {
    hide QueueInv, HandleInv, HeldCountInv, RestCountInv, CarryCountInv, CarryInv, GrowInv, CopyInv, LastInv, ModeInv;
    hide HistoryInv, CallInv, Decision, Covered;
    DecisionIsCovered(cfg, s, p);
  }

  lemma CallSnapshotKeeps(cfg: Config, s: Pool, p: Places, c: Call)
    requires cfg.Defined() && Inv(cfg, s, p) && Enabled(s, CallSnapshot(c))
    ensures Inv(cfg, Next(cfg, s, CallSnapshot(c)), p)
  {
    hide QueueInv, HandleInv, HeldCountInv, RestCountInv, CarryCountInv, CarryInv, GrowInv, CopyInv, LastInv, ModeInv;
    hide HistoryInv, Decision, Covered;
    DecisionIsCovered(cfg, s, p);
  }

  lemma SnapshotSize(gone: set<Node>, lost: set<Node>, p: Places)
    requires HistoryInv(gone, lost, p)
    ensures |p| < SIZE_T
  {
  }

  /** A thread that carries nothing becomes the deleter. */
  lemma LastBecomes(pcs: map<Thread, Pc>, recycler: bool, p: Places, t: Thread)
    requires LastInv(pcs, recycler, false, p) && (recycler || p != map[])
    ensures LastInv(pcs[t := LastOut], false, false, map[])
  {
    assert t in pcs[t := LastOut] && pcs[t := LastOut][t].LastOut?;
  }

  lemma LastNone(pcs: map<Thread, Pc>, recycler: bool, p: Places, p': Places)
    requires LastInv(pcs, recycler, false, p) && (recycler || p != map[]) && p' != map[]
    ensures LastInv(pcs, false, false, p')
  {
  }

  lemma PoolDies(pcs: map<Thread, Pc>, handles: map<Handle, Node>)
    requires ThreadInv(pcs, handles, true) && forall t | t in pcs :: !InPool(pcs[t])
    ensures ThreadInv(pcs, handles, false)
  {
  }

  lemma DestroyPoolKeeps(cfg: Config, s: Pool, p: Places, t: Thread)
    returns (p': Places)
    requires cfg.Defined() && Inv(cfg, s, p) && Enabled(s, DestroyPool(t))
    ensures Inv(cfg, Next(cfg, s, DestroyPool(t)), p')
  {
    p' := p - Elements(s.queue);
    if p' == map[] {
      DestroyEmptiedPool(cfg, s, p, t);
    } else {
      DestroyHeldPool(cfg, s, p, t);
    }
  }

  lemma ReaperDies(cfg: Config, shrinking: bool, p: Places)
    ensures ReaperInv(cfg, false, shrinking, Off, [], p)
  {
  }

  /** The queue's part: what its destruction leaves. */
  lemma QueueDies(cfg: Config, s: Pool, p: Places)
    requires Inv(cfg, s, p) && s.recycler
    ensures var ns := Elements(s.queue);
            var p' := p - ns;
            var counts := s.counts - ns;
            FreeNodes(s, s.queue) == s.(counts := counts, gone := s.gone + ns, block := s.block - |s.queue|) &&
            p'.Keys == counts.Keys && |p'| == |p| - |s.queue| && s.block - |s.queue| == |p'| + 1 && !s.freed &&
            QueueInv([], p') && HandleInv(s.handles, p') && HeldCountInv(counts, s.handles, p') &&
            RestCountInv(counts, p') &&
            CarryAll(counts, s.pcs, p') && HistoryInv(s.gone + ns, s.lost, p')
  {
    hide QueueInv, HandleInv, HeldCountInv, RestCountInv, CarryCountInv, CarryInv, GrowInv, CopyInv;
    hide LastInv, ModeInv, ReaperInv, HistoryInv, CallInv, FreeNodes, Elements, InUseNodes, UsageInv;
    assert s.queue[..|s.queue|] == s.queue && s.queue[|s.queue|..] == [];
    FreeQueuedKeeps(cfg, s, p, |s.queue|);
  }

  lemma DestroyPoolGives(cfg: Config, s: Pool, t: Thread)
    requires cfg.Defined() && Enabled(s, DestroyPool(t)) && FreeNodes(s, s.queue).fault == Clear
    ensures var drained := FreeNodes(s, s.queue);
            var z := drained.(queue := [], recycler := false, reaper := Off, block := drained.block - 1);
            Next(cfg, s, DestroyPool(t)) == if z.block == 0 then Go(z, t, LastOut) else z
    ensures s.recycler && t !in s.pcs && s.shrinks == map[] && s.fault == Clear
    ensures forall u | u in s.pcs :: !InPool(s.pcs[u])
  {
    hide FreeNodes;
  }

  /** The threads' part, when no node is left: the destroying thread is to delete the block. */
  lemma LastThreadDies(
    pcs: map<Thread, Pc>, handles: map<Handle, Node>, counts: map<Node, int>, p: Places, p': Places, t: Thread)
    requires ThreadInv(pcs, handles, true) && (forall u | u in pcs :: !InPool(pcs[u])) && LastInv(pcs, true, false, p)
    requires p'.Keys == counts.Keys && CarryAll(counts, pcs, p') && t !in pcs && p' == map[]
    ensures ThreadInv(pcs[t := LastOut], handles, false) && LastInv(pcs[t := LastOut], false, false, p')
    ensures CarryAll(counts, pcs[t := LastOut], p')
  {
    hide ThreadInv, LastInv, CarryAll;
    PoolDies(pcs, handles);
    LastBecomes(pcs, true, p, t);
    CarryPlain(pcs, p', counts, counts, t, LastOut);
    ThreadGo(pcs, handles, false, t, LastOut);
  }

  lemma DestroyEmptiedPool(cfg: Config, s: Pool, p: Places, t: Thread)
    requires cfg.Defined() && Inv(cfg, s, p) && Enabled(s, DestroyPool(t)) && p - Elements(s.queue) == map[]
    ensures Inv(cfg, Next(cfg, s, DestroyPool(t)), p - Elements(s.queue))
  {
    hide QueueInv, HandleInv, HeldCountInv, RestCountInv, CarryCountInv, CarryInv, GrowInv, CopyInv;
    hide LastInv, ModeInv, ReaperInv, HistoryInv, CallInv, FreeNodes, Elements, Next, InPool;
    var p' := p - Elements(s.queue);
    QueueDies(cfg, s, p);
    DestroyPoolGives(cfg, s, t);
    hide Enabled;
    LastThreadDies(s.pcs, s.handles, s.counts - Elements(s.queue), p, p', t);
    ReaperDies(cfg, s.shrinking, p');
    CallsOfTheDead(cfg, s.shrinks, |p|, |p'|);
  }

  lemma DestroyHeldPool(cfg: Config, s: Pool, p: Places, t: Thread)
    requires cfg.Defined() && Inv(cfg, s, p) && Enabled(s, DestroyPool(t)) && p - Elements(s.queue) != map[]
    ensures Inv(cfg, Next(cfg, s, DestroyPool(t)), p - Elements(s.queue))
  {
    hide QueueInv, HandleInv, HeldCountInv, RestCountInv, CarryCountInv, CarryInv, GrowInv, CopyInv;
    hide LastInv, ModeInv, ReaperInv, HistoryInv, CallInv, FreeNodes, Elements, Next, InPool;
    var p' := p - Elements(s.queue);
    QueueDies(cfg, s, p);
    DestroyPoolGives(cfg, s, t);
    hide Enabled;
    PoolDies(s.pcs, s.handles);
    LastNone(s.pcs, s.recycler, p, p');
    ReaperDies(cfg, s.shrinking, p');
    CallsOfTheDead(cfg, s.shrinks, |p|, |p'|);
    assert |p'| != 0;
  }

  lemma FreeOne(s: Pool, n: Node)
    requires !s.freed && n in s.counts
    ensures FreeNodes(s, [n]) == s.(counts := s.counts - {n}, gone := s.gone + {n}, block := s.block - 1)
  {
    assert Elements([n]) == {n};
  }

  lemma DestroyNodeKeeps(cfg: Config, s: Pool, p: Places, t: Thread)
    returns (p': Places)
    requires cfg.Defined() && Inv(cfg, s, p) && Enabled(s, DestroyNode(t))
    ensures Inv(cfg, Next(cfg, s, DestroyNode(t)), p')
  {
    p' := p - {s.pcs[t].node};
    if p' == map[] {
      DestroyLastNode(cfg, s, p, t);
    } else {
      DestroyOneNode(cfg, s, p, t);
    }
  }

  /** What both have in common. */
  lemma DestroyNodeFrees(cfg: Config, s: Pool, p: Places, t: Thread)
    requires cfg.Defined() && Inv(cfg, s, p) && Enabled(s, DestroyNode(t))
    ensures var n := s.pcs[t].node;
            var p' := p - {n};
            !s.recycler && !s.freed && n in s.counts && n in p && p'.Keys == (s.counts - {n}).Keys && |p'| == |p| - 1 &&
            FreeNodes(s, [n]) == s.(counts := s.counts - {n}, gone := s.gone + {n}, block := s.block - 1) &&
            QueueInv(s.queue, p') && HandleInv(s.handles, p') && HeldCountInv(s.counts - {n}, s.handles, p') &&
            RestCountInv(s.counts - {n}, p') && CarryAll(s.counts - {n}, s.pcs - {t}, p') &&
            HistoryInv(s.gone + {n}, s.lost, p') && CallInv(cfg, false, s.shrinks, |p'|)
  {
    hide QueueInv, HandleInv, HeldCountInv, RestCountInv, CarryCountInv, CarryInv, GrowInv, CopyInv, LastInv, ModeInv;
    hide HistoryInv, CallInv, FreeNodes, InUseNodes;
    var n := s.pcs[t].node;
    CarriedFacts(cfg, s, p, t, n);
    ModeFacts(cfg, s, p, t);
    FreeOne(s, n);
    RemoveSize(p, {n});
    FreeResting(s.counts, s.handles, p, {n});
    FreeHistory(s.gone, s.lost, p, {n});
    FreeUnqueued(s.queue, p, n);
    CarryOff(s.pcs, p, s.counts, t, n, Lost, 0);
    CallsOfTheDead(cfg, s.shrinks, |p|, |p - {n}|);
  }

  lemma DestroyLastNode(cfg: Config, s: Pool, p: Places, t: Thread)
    requires cfg.Defined() && Inv(cfg, s, p) && Enabled(s, DestroyNode(t)) && p - {s.pcs[t].node} == map[]
    ensures Inv(cfg, Next(cfg, s, DestroyNode(t)), p - {s.pcs[t].node})
  {
    hide QueueInv, HandleInv, HeldCountInv, RestCountInv, CarryCountInv, CarryInv, GrowInv, CopyInv, LastInv, ModeInv;
    hide HistoryInv, CallInv, FreeNodes, InUseNodes;
    DestroyNodeFrees(cfg, s, p, t);
    var n := s.pcs[t].node;
    LastBecomes(s.pcs, s.recycler, p, t);
    CarryGoLast(s.pcs, p - {n}, s.counts - {n}, t);
    ThreadGo(s.pcs, s.handles, false, t, LastOut);
  }

  lemma DestroyOneNode(cfg: Config, s: Pool, p: Places, t: Thread)
    requires cfg.Defined() && Inv(cfg, s, p) && Enabled(s, DestroyNode(t)) && p - {s.pcs[t].node} != map[]
    ensures Inv(cfg, Next(cfg, s, DestroyNode(t)), p - {s.pcs[t].node})
  {
    hide QueueInv, HandleInv, HeldCountInv, RestCountInv, CarryCountInv, CarryInv, GrowInv, CopyInv, LastInv, ModeInv;
    hide HistoryInv, CallInv, FreeNodes, InUseNodes;
    DestroyNodeFrees(cfg, s, p, t);
    var n := s.pcs[t].node;
    LastKeep(s.pcs, s.recycler, s.freed, p, p - {n}, t, Missed);
    ThreadRest(s.pcs, s.handles, false, t);
    assert |p - {n}| != 0;
  }

  lemma FreeUnqueued(queue: seq<Node>, p: Places, n: Node)
    requires QueueInv(queue, p) && n in p && p[n] != InQueue
    ensures QueueInv(queue, p - {n})
  {
  }

  lemma CarryGoLast(pcs: map<Thread, Pc>, p: Places, counts: map<Node, int>, t: Thread)
    requires p.Keys == counts.Keys && CarryAll(counts, pcs - {t}, p)
    ensures CarryAll(counts, pcs[t := LastOut], p)
  {
    assert pcs[t := LastOut] == (pcs - {t})[t := LastOut];
    CarryPlain(pcs - {t}, p, counts, counts, t, LastOut);
  }

  lemma FreeBlockKeeps(cfg: Config, s: Pool, p: Places, t: Thread)
    requires cfg.Defined() && Inv(cfg, s, p) && Enabled(s, FreeBlock(t))
    ensures Inv(cfg, Next(cfg, s, FreeBlock(t)), p)
  {
    hide QueueInv, HandleInv, HeldCountInv, RestCountInv, CarryCountInv, CarryInv, GrowInv, CopyInv, LastInv, ModeInv;
    hide HistoryInv, CallInv;
    ModeFacts(cfg, s, p, t);
    LastFrees(s.pcs, p, t);
    CarryPlain(s.pcs, p, s.counts, s.counts, t, Missed);
    ThreadRest(s.pcs, s.handles, s.recycler, t);
  }

  lemma LastFrees(pcs: map<Thread, Pc>, p: Places, t: Thread)
    requires LastInv(pcs, false, false, p) && t in pcs && pcs[t].LastOut?
    ensures LastInv(pcs - {t}, false, true, p)
  {
  }
}
