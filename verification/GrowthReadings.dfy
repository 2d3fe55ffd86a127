/**
 The vector that a growth fills is made with `num - 1` elements and then appended to
 (src/base/Recycler.cpp:203).  As written the elements it starts with are null and are queued before
 the new nodes; the pool of the other modules has the room reserved instead.  This module follows
 the queue under both readings.
 */
module GrowthReadings {
  import opened Wrappers
  import opened RecyclerSizing
  import opened RecyclerSteps
  import opened RecyclerFrames
  import opened RecyclerInvariant
  import opened RecyclerTheorems

  datatype Reading = PreSized | Reserved

  /** `followed` is set when a null entry is used as a node. */
  datatype Queue = Queue(entries: seq<Option<Node>>, followed: bool)

  /** What the pool does to its queue. */
  datatype Op =
    | Pop
    | Put(n: Node)
    | Fill(want: nat, spare: seq<Node>)
    | Delete(num: nat)
    | Drain

  function Somes(queue: seq<Node>): (r: seq<Option<Node>>)
    ensures |r| == |queue|
  {
    seq(|queue|, i requires 0 <= i < |queue| => Some(queue[i]))
  }

  function Nulls(n: nat): (r: seq<Option<Node>>)
    ensures |r| == n
  {
    seq(n, i => None)
  }

  /** Takes `k` entries off the front, up to a null one. */
  function Taken(q: Queue, k: nat): Queue
    requires k <= |q.entries|
    decreases k
  {
    if k == 0 then q
    else if q.entries[0].None? then q.(followed := true)
    else Taken(q.(entries := q.entries[1..]), k - 1)
  }

  function OpStep(r: Reading, q: Queue, op: Op): Queue {
    if q.followed then q
    else match op
      case Pop => Taken(q, Min(1, |q.entries|))
      case Put(n) => q.(entries := q.entries + [Some(n)])
      case Fill(want, spare) =>
        q.(entries := q.entries + (if r.PreSized? && want > 0 then Nulls(want - 1) else []) + Somes(spare))
      case Delete(num) => Taken(q, Min(num, |q.entries|))
      case Drain => Taken(q, |q.entries|)
  }

  function AfterOps(r: Reading, q: Queue, ops: seq<Op>): Queue
    decreases |ops|
  {
    if ops == [] then q else AfterOps(r, OpStep(r, q, ops[0]), ops[1..])
  }

  // ---------------------------------------------------------------------------------------------
  // The pool is the reserved reading

  /** What an action of the pool does to the queue, if anything. */
  function OpOf(s: Pool, a: Action): Option<Op>
    requires Enabled(s, a)
  {
    match a
    case Acquire(_, _) => Some(Pop)
    case Push(t) => Some(Put(s.pcs[t].node))
    case Publish(t) => if s.pcs[t].result.Some? then Some(Fill(s.pcs[t].want, s.pcs[t].spare)) else None
    case ShrinkDelete => Some(Delete(s.reaper.due.num))
    case CallDelete(c) => Some(Delete(s.shrinks[c].num))
    case DestroyPool(_) => Some(Drain)
    case _ => None
  }

  lemma {:induction false} SomesTaken(queue: seq<Node>, k: nat)
    requires k <= |queue|
    ensures Taken(Queue(Somes(queue), false), k) == Queue(Somes(queue[k..]), false)
    decreases k
  {
    if k == 0 {
      assert queue[0..] == queue;
    } else {
      assert Somes(queue)[1..] == Somes(queue[1..]);
      SomesTaken(queue[1..], k - 1);
      assert queue[1..][k - 1..] == queue[k..];
    }
  }

  /** The queue after an action that does not fail. */
  function QueueAfter(s: Pool, a: Action): seq<Node>
    requires Enabled(s, a)
  {
    match OpOf(s, a)
    case None => s.queue
    case Some(Pop) => s.queue[Min(1, |s.queue|)..]
    case Some(Put(n)) => s.queue + [n]
    case Some(Fill(_, spare)) => s.queue + spare
    case Some(Delete(num)) => s.queue[Min(num, |s.queue|)..]
    case Some(Drain) => s.queue[|s.queue|..]
  }

  /** Every step of the pool does to its queue what the reserved reading does, and no null is met. */
  lemma PoolIsReserved(cfg: Config, s: Pool, a: Action)
    requires cfg.Defined() && Reachable(cfg, s) && Enabled(s, a)
    ensures var q := Queue(Somes(s.queue), false);
            Queue(Somes(Next(cfg, s, a).queue), false) ==
            (if OpOf(s, a).Some? then OpStep(Reserved, q, OpOf(s, a).value) else q)
  {
    hide Reachable, Enabled, Next, Taken, Somes, OpOf;
    NoFault(cfg, s, a);
    QueueFollows(cfg, s, a);
    match OpOf(s, a)
    case None =>
    case Some(Pop) => SomesTaken(s.queue, Min(1, |s.queue|));
    case Some(Put(n)) => SomesAppend(s.queue, [n]);
    case Some(Fill(_, spare)) => SomesAppend(s.queue, spare);
    case Some(Delete(num)) => SomesTaken(s.queue, Min(num, |s.queue|));
    case Some(Drain) => SomesTaken(s.queue, |s.queue|);
  }

  lemma SomesAppend(queue: seq<Node>, more: seq<Node>)
    ensures Somes(queue + more) == Somes(queue) + Somes(more) == Somes(queue) + [] + Somes(more)
    ensures |more| == 1 ==> Somes(more) == [Some(more[0])]
  {
  }

  lemma QueueFollows(cfg: Config, s: Pool, a: Action)
    requires cfg.Defined() && Enabled(s, a) && Next(cfg, s, a).fault == Clear
    ensures Next(cfg, s, a).queue == QueueAfter(s, a)
  {
    hide Enabled, Next, QueueAfter, NextQueue, Freed;
    if Frees(a) {
      FreeLeaves(cfg, s, a);
      FreeingTakes(s, a);
    } else if Schedules(a) {
      SchedulingLeaves(cfg, s, a);
      SchedulingTakesNothing(s, a);
    } else {
      StepLeaves(cfg, s, a, if a.Move? then 0 else a.t);
      SteppingTakes(s, a);
    }
  }

  lemma FreeingTakes(s: Pool, a: Action)
    requires Enabled(s, a) && Frees(a)
    ensures QueueAfter(s, a) == if a.DestroyNode? then s.queue else s.queue[|RecyclerFrames.Freed(s, a)|..]
  {
    hide Borrowed, Quiet;
    match a
    case DestroyNode(_) =>
    case ShrinkDelete =>
    case CallDelete(_) =>
    case DestroyPool(_) =>
  }

  lemma SchedulingTakesNothing(s: Pool, a: Action)
    requires Enabled(s, a) && Schedules(a)
    ensures QueueAfter(s, a) == s.queue
  {
    hide Borrowed, Quiet;
    match a
    case ShrinkSnapshot =>
    case ShrinkDone =>
    case CallSnapshot(_) =>
  }

  lemma SteppingTakes(s: Pool, a: Action)
    requires Enabled(s, a) && !Frees(a) && !Schedules(a)
    ensures QueueAfter(s, a) == NextQueue(s, a)
  {
    hide Borrowed, Quiet;
    match a
    case Push(_) =>
    case Acquire(_, _) =>
    case Publish(_) =>
    case _ =>
  }

  // ---------------------------------------------------------------------------------------------
  // The reading as written

  /** How many entries the operations take, apart from the pool's destructor, which takes all. */
  function Asked(ops: seq<Op>): nat {
    if ops == [] then 0
    else Asked(ops[1..]) + match ops[0]
                           case Pop => 1
                           case Delete(num) => num
                           case _ => 0
  }

  ghost predicate Fronted(q: Queue, front: seq<Node>) {
    !q.followed && |front| < |q.entries| && q.entries[..|front|] == Somes(front) && q.entries[|front|].None?
  }

  lemma {:induction false} TakenIff(q: Queue, front: seq<Node>, k: nat)
    requires Fronted(q, front) && k <= |q.entries|
    ensures Taken(q, k).followed <==> k > |front|
    ensures k <= |front| ==> Fronted(Taken(q, k), front[k..])
    decreases k
  {
    if k == 0 {
      assert front[0..] == front;
    } else if front != [] {
      assert q.entries[0] == q.entries[..|front|][0] == Somes(front)[0];
      var rest := q.(entries := q.entries[1..]);
      assert rest.entries[..|front| - 1] == q.entries[..|front|][1..] == Somes(front[1..]);
      TakenIff(rest, front[1..], k - 1);
      if k <= |front| {
        assert front[1..][k - 1..] == front[k..];
      }
    } else {
      assert q.entries[0].None?;
    }
  }

  lemma {:induction false} FollowedStays(r: Reading, q: Queue, ops: seq<Op>)
    requires q.followed
    ensures AfterOps(r, q, ops).followed
    decreases |ops|
  {
    if ops != [] {
      FollowedStays(r, q, ops[1..]);
    }
  }

  lemma AppendedFront(q: Queue, front: seq<Node>, more: seq<Option<Node>>)
    requires Fronted(q, front)
    ensures Fronted(q.(entries := q.entries + more), front)
  {
    assert (q.entries + more)[..|front|] == q.entries[..|front|];
  }

  /** Behind `front` the first null is followed exactly when the operations take more than `front`. */
  lemma {:induction false} NullIsMetIff(r: Reading, q: Queue, front: seq<Node>, ops: seq<Op>)
    requires Fronted(q, front)
    ensures AfterOps(r, q, ops).followed <==> Drain in ops || Asked(ops) > |front|
    decreases |ops|
  {
    hide Fronted, Taken;
    FrontSays(q, front);
    if ops != [] {
      var next := OpStep(r, q, ops[0]);
      match ops[0]
      case Pop => TakesIff(r, q, front, ops, 1);
      case Delete(num) => TakesIff(r, q, front, ops, num);
      case Drain => TakenIff(q, front, |q.entries|); FollowedStays(r, next, ops[1..]);
      case Put(n) => AppendedFront(q, front, [Some(n)]); NullIsMetIff(r, next, front, ops[1..]);
      case Fill(want, spare) =>
        var more := (if r.PreSized? && want > 0 then Nulls(want - 1) else []) + Somes(spare);
        AppendedFront(q, front, more);
        assert next.entries == q.entries + more;
        NullIsMetIff(r, next, front, ops[1..]);
    }
  }

  lemma FrontSays(q: Queue, front: seq<Node>)
    requires Fronted(q, front)
    ensures !q.followed && |front| < |q.entries|
  {
  }

  lemma {:induction false} TakesIff(r: Reading, q: Queue, front: seq<Node>, ops: seq<Op>, num: nat)
    requires Fronted(q, front) && ops != [] && (ops[0] == Delete(num) || (ops[0] == Pop && num == 1))
    ensures AfterOps(r, q, ops).followed <==> Drain in ops || Asked(ops) > |front|
    decreases |ops|, 0
  {
    hide Fronted, Taken;
    FrontSays(q, front);
    var k := Min(num, |q.entries|);
    TakenIff(q, front, k);
    var next := OpStep(r, q, ops[0]);
    assert next == Taken(q, k);
    if k > |front| {
      FollowedStays(r, next, ops[1..]);
    } else {
      NullIsMetIff(r, next, front[k..], ops[1..]);
    }
  }

  /** The nodes before the first null entry. */
  function FrontOf(entries: seq<Option<Node>>): seq<Node> {
    if entries == [] || entries[0].None? then [] else [entries[0].value] + FrontOf(entries[1..])
  }

  lemma {:induction false} FrontIsPrefix(entries: seq<Option<Node>>)
    ensures var front := FrontOf(entries);
            |front| <= |entries| && entries[..|front|] == Somes(front) &&
            (|front| < |entries| ==> entries[|front|].None?)
  {
    if entries != [] && entries[0].Some? {
      FrontIsPrefix(entries[1..]);
      var rest := FrontOf(entries[1..]);
      assert entries[..|rest| + 1] == [entries[0]] + entries[1..][..|rest|];
      assert Somes([entries[0].value] + rest) == [entries[0]] + Somes(rest);
    }
  }

  /**
   As written, whatever the queue holds when a successful growth publishes and whatever happens to
   it afterwards, a null is followed exactly when more entries are taken than there were before the
   first null; when that is none it is followed by the next acquire.  A shrink that frees more, or
   the pool's destructor, follows one too.
   */
  lemma GrowthIsFollowedIff(cfg: Config, s: Pool, t: Thread, q: Queue, ops: seq<Op>)
    requires cfg.Defined() && Reachable(cfg, s) && Enabled(s, Publish(t)) && OpOf(s, Publish(t)).Some? && !q.followed
    ensures var q' := OpStep(PreSized, q, OpOf(s, Publish(t)).value);
            !q'.followed && (AfterOps(PreSized, q', ops).followed <==>
              Drain in ops || Asked(ops) > |FrontOf(q.entries)|)
  {
    hide Reachable, Inv, Enabled, OpStep, Fronted;
    var p := ReachableHolds(cfg, s);
    var op := OpOf(s, Publish(t)).value;
    FillIsLarge(cfg, s, p, t);
    FilledIsFronted(q, op.want, op.spare);
    NullIsMetIff(PreSized, OpStep(PreSized, q, op), FrontOf(q.entries), ops);
    FrontSays(OpStep(PreSized, q, op), FrontOf(q.entries));
  }

  /** A growth that publishes has created two nodes at least. */
  lemma FillIsLarge(cfg: Config, s: Pool, p: Places, t: Thread)
    requires Inv(cfg, s, p) && Enabled(s, Publish(t)) && OpOf(s, Publish(t)).Some?
    ensures var op := OpOf(s, Publish(t)).value;
            op.Fill? && op.want >= 2
  {
    hide Inv;
    ModeFacts(cfg, s, p, t);
  }

  lemma FilledIsFronted(q: Queue, want: nat, spare: seq<Node>)
    requires !q.followed && want >= 2
    ensures Fronted(OpStep(PreSized, q, Fill(want, spare)), FrontOf(q.entries))
  {
    hide FrontOf, Somes;
    FrontIsPrefix(q.entries);
    var front := FrontOf(q.entries);
    var filled := q.entries + Nulls(want - 1) + Somes(spare);
    assert filled[..|front|] == q.entries[..|front|];
    assert |front| == |q.entries| ==> filled[|front|] == Nulls(want - 1)[0];
  }
}
