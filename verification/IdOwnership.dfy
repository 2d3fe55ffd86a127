/**
 Who owns an id while any number of threads allocate, publish, withdraw and return ids.

 A client of the allocator keeps a registry keyed by id (the service map, the timer map).  Its
 threads interleave at the grain of the allocator's atomic steps and of the registry's critical
 sections.  mUsage is left out here: its clamp can lose concurrent updates.
 */
module IdOwnership {
  type Thread = nat

  /** What a thread has in hand; a thread that is not in the map has nothing to do with ids. */
  datatype Hand =
    | Busy
    /** The free set was seen empty; the next id is about to be taken. */
    | Looking
    | Owning(id: int)

  /** `registry` holds the published ids; `leaked` those dropped without being returned (history). */
  datatype State = State(free: set<int>, next: int, registry: set<int>, leaked: set<int>, hands: map<Thread, Hand>)

  datatype Action =
    | Begin(t: Thread)
    | End(t: Thread)
    | TakeFree(t: Thread, id: int)
    | SeeNone(t: Thread)
    | TakeNext(t: Thread)
    | Publish(t: Thread)
    | Withdraw(t: Thread, id: int)
    | GiveBack(t: Thread)

  predicate Unburdened(s: State, t: Thread) {
    t in s.hands ==> s.hands[t] == Busy
  }

  predicate Enabled(s: State, a: Action) {
    match a
    case Begin(t) => t !in s.hands
    case End(t) => t in s.hands && s.hands[t] == Busy
    case TakeFree(t, id) => Unburdened(s, t) && id in s.free
    case SeeNone(t) => Unburdened(s, t) && s.free == {}
    case TakeNext(t) => t in s.hands && s.hands[t] == Looking
    case Publish(t) => t in s.hands && s.hands[t].Owning?
    case Withdraw(t, id) => Unburdened(s, t) && id in s.registry
    case GiveBack(t) => t in s.hands && s.hands[t].Owning?
  }

  function Next(s: State, a: Action): State
    requires Enabled(s, a)
  {
    match a
    case Begin(t) => s.(hands := s.hands[t := Busy])
    case End(t) => s.(hands := s.hands - {t})
    case TakeFree(t, id) => s.(free := s.free - {id}, hands := s.hands[t := Owning(id)])
    case SeeNone(t) => s.(hands := s.hands[t := Looking])
    case TakeNext(t) => s.(next := s.next + 1, hands := s.hands[t := Owning(s.next + 1)])
    case Publish(t) =>
      // The duplicate branch drops the id.
      var id := s.hands[t].id;
      if id in s.registry then s.(leaked := s.leaked + {id}, hands := s.hands - {t})
      else s.(registry := s.registry + {id}, hands := s.hands - {t})
    case Withdraw(t, id) => s.(registry := s.registry - {id}, hands := s.hands[t := Owning(id)])
    case GiveBack(t) => s.(free := s.free + {s.hands[t].id}, hands := s.hands - {t})
  }

  ghost predicate HeldBy(s: State, t: Thread, id: int) {
    t in s.hands && s.hands[t] == Owning(id)
  }

  ghost predicate InHand(s: State, id: int) {
    exists t :: HeldBy(s, t, id)
  }

  /** The id is allocated and not returned. */
  predicate Outstanding(s: State, id: int) {
    1 <= id <= s.next && id !in s.free
  }

  /** Every id up to next has exactly one owner, and no other id has any. */
  ghost predicate Owned(s: State) {
    s.next >= 0 &&
    (forall id | id in s.free :: 1 <= id <= s.next && id !in s.registry && id !in s.leaked) &&
    (forall id | id in s.registry :: 1 <= id <= s.next && id !in s.leaked) &&
    (forall id | id in s.leaked :: 1 <= id <= s.next) &&
    (forall t, id | HeldBy(s, t, id) :: 1 <= id <= s.next && id !in s.free && id !in s.registry && id !in s.leaked) &&
    (forall t, u, id | HeldBy(s, t, id) && HeldBy(s, u, id) :: t == u) &&
    (forall id | 1 <= id <= s.next :: id in s.free || id in s.registry || id in s.leaked || InHand(s, id))
  }

  lemma StepKeepsOwned(s: State, a: Action)
    requires Owned(s) && Enabled(s, a)
    ensures Owned(Next(s, a)) && Next(s, a).leaked == s.leaked
  {
    match a
    case Begin(t) => KeepHands(s, Next(s, a), t);
    case End(t) => KeepHands(s, Next(s, a), t);
    case SeeNone(t) => KeepHands(s, Next(s, a), t);
    case TakeFree(t, id) => GainHand(s, Next(s, a), t, id);
    case TakeNext(t) => GainHand(s, Next(s, a), t, s.next + 1);
    case Withdraw(t, id) => GainHand(s, Next(s, a), t, id);
    case Publish(t) => assert HeldBy(s, t, s.hands[t].id); LoseHand(s, Next(s, a), t);
    case GiveBack(t) => assert HeldBy(s, t, s.hands[t].id); LoseHand(s, Next(s, a), t);
  }

  /** A thread that owned nothing owns nothing. */
  lemma KeepHands(s: State, s': State, t: Thread)
    requires Owned(s) && s' == s.(hands := s'.hands)
    requires forall u, id :: HeldBy(s, u, id) <==> HeldBy(s', u, id)
    ensures Owned(s')
  {
    forall id | InHand(s, id)
      ensures InHand(s', id)
    {
      var u :| HeldBy(s, u, id);
      assert HeldBy(s', u, id);
    }
  }

  /** An id leaves the free set, the registry or the future for a thread that owned nothing. */
  lemma GainHand(s: State, s': State, t: Thread, id: int)
    requires Owned(s) && s'.hands == s.hands[t := Owning(id)] && s'.leaked == s.leaked
    requires t in s.hands ==> !s.hands[t].Owning?
    requires || (id in s.free && s'.free == s.free - {id} && s'.registry == s.registry && s'.next == s.next)
             || (id in s.registry && s'.free == s.free && s'.registry == s.registry - {id} && s'.next == s.next)
             || (id == s.next + 1 && s'.free == s.free && s'.registry == s.registry && s'.next == s.next + 1)
    ensures Owned(s')
  {
    HandsAfterGain(s, s', t, id);
    hide HeldBy;
  }

  lemma HandsAfterGain(s: State, s': State, t: Thread, id: int)
    requires s'.hands == s.hands[t := Owning(id)] && (t in s.hands ==> !s.hands[t].Owning?)
    ensures forall u, i :: HeldBy(s', u, i) <==> HeldBy(s, u, i) || (u == t && i == id)
    ensures forall i :: InHand(s', i) <==> InHand(s, i) || i == id
  {
    assert HeldBy(s', t, id);
    forall i | InHand(s, i)
      ensures InHand(s', i)
    {
      var u :| HeldBy(s, u, i);
      assert HeldBy(s', u, i);
    }
  }

  /** A thread's id goes to the registry or back to the free set. */
  lemma LoseHand(s: State, s': State, t: Thread)
    requires Owned(s) && t in s.hands && s.hands[t].Owning? && s'.hands == s.hands - {t}
    requires s'.leaked == s.leaked && s'.next == s.next
    requires || (s'.free == s.free && s'.registry == s.registry + {s.hands[t].id})
             || (s'.free == s.free + {s.hands[t].id} && s'.registry == s.registry)
    ensures Owned(s')
  {
    HandsAfterLoss(s, s', t);
    hide HeldBy;
  }

  lemma HandsAfterLoss(s: State, s': State, t: Thread)
    requires t in s.hands && s.hands[t].Owning? && s'.hands == s.hands - {t}
    ensures HeldBy(s, t, s.hands[t].id)
    ensures forall u, i :: HeldBy(s', u, i) <==> HeldBy(s, u, i) && u != t
    ensures forall i :: InHand(s, i) ==> InHand(s', i) || i == s.hands[t].id
  {
    forall i | InHand(s, i)
      ensures InHand(s', i) || i == s.hands[t].id
    {
      var u :| HeldBy(s, u, i);
      if u != t {
        assert HeldBy(s', u, i);
      }
    }
  }

  // ---------------------------------------------------------------------------------------------
  // Runs

  predicate IsRun(s: State, run: seq<Action>)
    decreases |run|
  {
    run == [] || (Enabled(s, run[0]) && IsRun(Next(s, run[0]), run[1..]))
  }

  function After(s: State, run: seq<Action>): State
    requires IsRun(s, run)
    decreases |run|
  {
    if run == [] then s else After(Next(s, run[0]), run[1..])
  }

  lemma {:induction false} RunKeepsOwned(s: State, run: seq<Action>)
    requires Owned(s) && IsRun(s, run)
    ensures Owned(After(s, run)) && After(s, run).leaked == s.leaked
    decreases |run|
  {
    if run != [] {
      StepKeepsOwned(s, run[0]);
      hide Owned, Next, Enabled;
      RunKeepsOwned(Next(s, run[0]), run[1..]);
    }
  }

  /**
   After any interleaving from an empty registry, every outstanding id is owned by exactly one of
   the registry and one thread; outstanding ids are therefore distinct, publishing never meets its
   own id in the registry, and returning never meets it in the free set.
   */
  lemma OneOwnerPerId(run: seq<Action>, id: int)
    requires IsRun(State({}, 0, {}, {}, map[]), run)
    ensures var s := After(State({}, 0, {}, {}, map[]), run);
            (Outstanding(s, id) <==> id in s.registry || InHand(s, id)) &&
            !(id in s.registry && InHand(s, id)) && s.leaked == {} &&
            (forall t, u :: HeldBy(s, t, id) && HeldBy(s, u, id) ==> t == u) &&
            (InHand(s, id) ==> id !in s.free)
  {
    var start := State({}, 0, {}, {}, map[]);
    assert Owned(start);
    RunKeepsOwned(start, run);
  }
}
