/**
 The identifier allocator: freed ids are handed out again in no particular order, and a new id is
 taken only when none is free.  Ids are unbounded; the source counts in 64 bits.
 */
module Identifiers {
  import opened Collections

  /** mHashSet, mNext and mUsage. */
  datatype Ids = Ids(free: set<int>, next: int, usage: int) {
    function Outstanding(): set<int> {
      Upto(next) - free
    }

    /** Free and outstanding ids partition 1..next, and usage counts the outstanding ones. */
    ghost predicate Ok() {
      next >= 0 && free <= Upto(next) && usage == |Outstanding()|
    }
  }

  predicate Within(i: int, n: int) {
    1 <= i <= n
  }

  function Upto(n: int): set<int> {
    set i | 1 <= i <= n && Within(i, n)
  }

  lemma UptoStep(n: int)
    requires n >= 0
    ensures Upto(n + 1) == Upto(n) + {n + 1} && n + 1 !in Upto(n)
  {
  }

  lemma {:induction false} UptoSize(n: nat)
    ensures |Upto(n)| == n
  {
    if n > 0 {
      UptoSize(n - 1);
      assert Upto(n) == Upto(n - 1) + {n};
    }
  }

  /** `b` is a state in which an allocation that returned `id` may leave `a`. */
  ghost predicate Allocates(a: Ids, id: int, b: Ids) {
    if a.free != {} then id in a.free && b == Ids(a.free - {id}, a.next, a.usage + 1)
    else id == a.next + 1 && b == Ids(a.free, a.next + 1, a.usage + 1)
  }

  function Recycles(a: Ids, id: int): Ids {
    Ids(a.free + {id}, a.next, if a.usage - 1 > 0 then a.usage - 1 else 0)
  }

  class IdentAllocator {
    var free: set<int>
    var next: int
    var usage: int

    ghost function View(): Ids
      reads this
    {
      Ids(free, next, usage)
    }

    constructor ()
      ensures View() == Ids({}, 0, 0)
    {
      free, next, usage := {}, 0, 0;
    }

    method Allocate() returns (id: int)
      modifies this
      ensures Allocates(old(View()), id, View()) && usage == old(usage) + 1
      ensures if old(free) != {} then id in old(free) && free == old(free) - {id} && next == old(next)
              else id == next == old(next) + 1 && free == {}
    {
      if free != {} {
        id := Pick(free);
        free := free - {id};
        usage := usage + 1;
      } else {
        usage := usage + 1;
        next := next + 1;
        id := next;
      }
    }

    method Recycle(id: int)
      modifies this
      ensures View() == Recycles(old(View()), id) && free == old(free) + {id} && next == old(next)
      ensures usage == if old(usage) >= 1 then old(usage) - 1 else 0
    {
      free := free + {id};
      usage := usage - 1;
      usage := if usage > 0 then usage else 0;
    }

    function GetUsage(): int
      reads this
    {
      usage
    }
  }

  /** An allocation returns an id that was not outstanding, and only that one is added. */
  lemma AllocationIsNew(a: Ids, id: int, b: Ids)
    requires a.Ok() && Allocates(a, id, b)
    ensures id >= 1 && id !in a.Outstanding() && b.Outstanding() == a.Outstanding() + {id} && b.Ok()
  {
    UptoStep(a.next);
    if a.free == {} {
      assert id >= 1;
      hide Upto;
      assert b.Outstanding() == a.Outstanding() + {id};
    } else {
      assert id in Upto(a.next);
      hide Upto;
      assert b.Outstanding() == a.Outstanding() + {id};
    }
  }

  /**
   Recycle accepts any id.  It keeps the books exactly when the id is outstanding, or is free
   already while nothing is outstanding, where the clamp hides the second return.
   */
  lemma RecycleKeepsIff(a: Ids, id: int)
    requires a.Ok()
    ensures Recycles(a, id).Ok() <==> id in a.Outstanding() || (id in a.free && a.usage == 0)
    ensures id in a.Outstanding() ==> Recycles(a, id).Outstanding() == a.Outstanding() - {id}
  {
    var b := Recycles(a, id);
    assert b.Outstanding() == a.Outstanding() - {id};
    if id in a.Outstanding() {
      assert |b.Outstanding()| == a.usage - 1;
    } else {
      assert b.Outstanding() == a.Outstanding();
      assert id in b.free;
    }
  }

  /** Returning a foreign id makes the allocator hand out one id twice. */
  lemma ForeignRecycleDuplicates()
    ensures var a := Recycles(Ids({}, 0, 0), 1);
            Allocates(a, 1, Ids({}, 0, 1)) && Allocates(Ids({}, 0, 1), 1, Ids({}, 1, 2))
  {
    assert {1} - {1} == {};
  }

  // ---------------------------------------------------------------------------------------------
  // Sequential runs

  datatype Op = Take(id: int) | Give(id: int)

  /** Every id taken is one the allocator may return, every id given back is outstanding. */
  ghost predicate IsHistory(a: Ids, ops: seq<Op>)
    decreases |ops|
  {
    ops == [] ||
    match ops[0]
    case Take(id) => Allocates(a, id, Taken(a, id)) && IsHistory(Taken(a, id), ops[1..])
    case Give(id) => id in a.Outstanding() && IsHistory(Recycles(a, id), ops[1..])
  }

  function Taken(a: Ids, id: int): Ids {
    if a.free != {} then Ids(a.free - {id}, a.next, a.usage + 1) else Ids(a.free, a.next + 1, a.usage + 1)
  }

  function Step(a: Ids, op: Op): Ids {
    match op
    case Take(id) => Taken(a, id)
    case Give(id) => Recycles(a, id)
  }

  function Run(a: Ids, ops: seq<Op>): Ids
    decreases |ops|
  {
    if ops == [] then a else Run(Step(a, ops[0]), ops[1..])
  }

  /** The largest number of ids that were outstanding at once. */
  function Peak(a: Ids, ops: seq<Op>): nat
    decreases |ops|
  {
    var here := |a.Outstanding()|;
    if ops == [] then here
    else
      var later := Peak(Step(a, ops[0]), ops[1..]);
      if later > here then later else here
  }

  lemma {:induction false} RunIsSound(a: Ids, ops: seq<Op>, peak: nat)
    requires a.Ok() && IsHistory(a, ops) && a.next == peak && |a.Outstanding()| <= peak
    ensures Run(a, ops).Ok()
    ensures Run(a, ops).next == if Peak(a, ops) > peak then Peak(a, ops) else peak
    decreases |ops|
  {
    if ops != [] {
      var b := Step(a, ops[0]);
      match ops[0]
      case Take(id) =>
        AllocationIsNew(a, id, b);
        if a.free == {} {
          assert a.Outstanding() == Upto(a.next);
          UptoSize(a.next);
          RunIsSound(b, ops[1..], peak + 1);
        } else {
          OutstandingBound(b);
          RunIsSound(b, ops[1..], peak);
        }
        PeakCoversStart(b, ops[1..]);
      case Give(id) =>
        RecycleKeepsIff(a, id);
        RunIsSound(b, ops[1..], peak);
    }
  }

  lemma OutstandingBound(a: Ids)
    requires a.Ok()
    ensures |a.Outstanding()| <= a.next
  {
    UptoSize(a.next);
    SubsetSize(a.Outstanding(), Upto(a.next));
  }

  lemma PeakCoversStart(a: Ids, ops: seq<Op>)
    ensures Peak(a, ops) >= |a.Outstanding()|
  {
  }

  /**
   Over any sequential history, free and outstanding ids partition 1..next, usage is the number of
   outstanding ids, and next is the most that were ever outstanding at once.
   */
  lemma NextIsThePeak(ops: seq<Op>)
    requires IsHistory(Ids({}, 0, 0), ops)
    ensures var a := Run(Ids({}, 0, 0), ops);
            a.Ok() && a.next == Peak(Ids({}, 0, 0), ops)
  {
    var a := Ids({}, 0, 0);
    assert a.Outstanding() == {};
    RunIsSound(a, ops, 0);
  }
}
