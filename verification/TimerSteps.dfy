/**
 The timer map while any number of threads create and remove timers.  A removal returns the id to
 the allocator while it holds the map's mutex; the allocator has a lock of its own.
 */
module TimerSteps {
  import opened Wrappers
  import O = IdOwnership

  type Thread = nat

  datatype Pc =
    /** AllocateTS saw no free id. */
    | CreateMissed
    | Creating(id: int)
    /** RemoveTimer erased the timer; this thread holds the map's mutex. */
    | Removing(id: int)

  /** `leaked` are ids that a creation dropped because the map had them (history). */
  datatype State = State(timers: set<int>, free: set<int>, next: int, leaked: set<int>, holder: Option<Thread>,
    pcs: map<Thread, Pc>)

  datatype Action =
    | TakeFree(t: Thread, id: int)
    | SeeNone(t: Thread)
    | TakeNext(t: Thread)
    | Insert(t: Thread)
    | Erase(t: Thread, id: int)
    | Return(t: Thread)

  function Empty(): State {
    State({}, {}, 0, {}, None, map[])
  }

  predicate Enabled(s: State, a: Action) {
    match a
    case TakeFree(t, id) => t !in s.pcs && id in s.free
    case SeeNone(t) => t !in s.pcs && s.free == {}
    case TakeNext(t) => t in s.pcs && s.pcs[t].CreateMissed?
    case Insert(t) => t in s.pcs && s.pcs[t].Creating? && s.holder.None?
    case Erase(t, _) => t !in s.pcs && s.holder.None?
    case Return(t) => t in s.pcs && s.pcs[t].Removing?
  }

  function Next(s: State, a: Action): State
    requires Enabled(s, a)
  {
    match a
    case TakeFree(t, id) => s.(free := s.free - {id}, pcs := s.pcs[t := Creating(id)])
    case SeeNone(t) => s.(pcs := s.pcs[t := CreateMissed])
    case TakeNext(t) => s.(next := s.next + 1, pcs := s.pcs[t := Creating(s.next + 1)])
    case Insert(t) =>
      var id := s.pcs[t].id;
      if id in s.timers then s.(leaked := s.leaked + {id}, pcs := s.pcs - {t})
      else s.(timers := s.timers + {id}, pcs := s.pcs - {t})
    case Erase(t, id) =>
      if id !in s.timers then s
      else s.(timers := s.timers - {id}, holder := Some(t), pcs := s.pcs[t := Removing(id)])
    case Return(t) => s.(free := s.free + {s.pcs[t].id}, holder := None, pcs := s.pcs - {t})
  }

  predicate IsRun(s: State, run: seq<Action>)
    decreases |run|
  {
    run == [] || (Enabled(s, run[0]) && IsRun(Next(s, run[0]), run[1..]))
  }

  function After(s: State, run: seq<Action>): State
    requires IsRun(s, run)
    decreases |run|
  {
    if run == [] then s else After(Next(s, run[0]), run[1..])
  }

  // ---------------------------------------------------------------------------------------------
  // The timer map is a client of the id allocator

  function HandOf(pc: Pc): O.Hand {
    match pc
    case CreateMissed => O.Looking
    case _ => O.Owning(pc.id)
  }

  function View(s: State): O.State {
    O.State(s.free, s.next, s.timers, s.leaked, map t | t in s.pcs :: HandOf(s.pcs[t]))
  }

  function IdStep(s: State, a: Action): Option<O.Action>
    requires Enabled(s, a)
  {
    match a
    case TakeFree(t, id) => Some(O.TakeFree(t, id))
    case SeeNone(t) => Some(O.SeeNone(t))
    case TakeNext(t) => Some(O.TakeNext(t))
    case Insert(t) => Some(O.Publish(t))
    case Erase(t, id) => if id in s.timers then Some(O.Withdraw(t, id)) else None
    case Return(t) => Some(O.GiveBack(t))
  }

  lemma ViewGo(s: State, t: Thread, pc: Pc)
    ensures View(s.(pcs := s.pcs[t := pc])).hands == View(s).hands[t := HandOf(pc)]
    ensures View(s.(pcs := s.pcs - {t})).hands == View(s).hands - {t}
  {
  }

  /** Each locked section of the manager is a step of an id client, or does not concern ids. */
  lemma StepRefines(s: State, a: Action)
    requires Enabled(s, a)
    ensures match IdStep(s, a)
            case Some(b) => O.Enabled(View(s), b) && View(Next(s, a)) == O.Next(View(s), b)
            case None => View(Next(s, a)) == View(s)
  {
    match a
    case TakeFree(t, id) => ViewGo(s, t, Creating(id));
    case SeeNone(t) => ViewGo(s, t, CreateMissed);
    case TakeNext(t) => ViewGo(s, t, Creating(s.next + 1));
    case Insert(t) => ViewGo(s, t, CreateMissed);
    case Erase(t, id) => ViewGo(s, t, Removing(id));
    case Return(t) => ViewGo(s, t, CreateMissed);
  }

  /** The thread between an erasure and the return of its id is the one that holds the mutex. */
  ghost predicate Locked(s: State) {
    forall t :: t in s.pcs && s.pcs[t].Removing? <==> s.holder == Some(t)
  }

  ghost predicate Inv(s: State) {
    O.Owned(View(s)) && Locked(s)
  }

  lemma StepKeeps(s: State, a: Action)
    requires Inv(s) && Enabled(s, a)
    ensures Inv(Next(s, a)) && Next(s, a).leaked == s.leaked
  {
    StepKeepsLocked(s, a);
    hide O.Owned, Enabled, Next, O.Next, O.Enabled, IdStep, Locked;
    StepRefines(s, a);
    if IdStep(s, a).Some? {
      O.StepKeepsOwned(View(s), IdStep(s, a).value);
    }
    assert View(Next(s, a)).leaked == View(s).leaked;
  }

  lemma StepKeepsLocked(s: State, a: Action)
    requires Locked(s) && Enabled(s, a)
    ensures Locked(Next(s, a))
  {
  }

  lemma {:induction false} RunKeeps(s: State, run: seq<Action>)
    requires Inv(s) && IsRun(s, run)
    ensures Inv(After(s, run)) && After(s, run).leaked == s.leaked
    decreases |run|
  {
    hide Inv, Enabled, Next;
    if run != [] {
      StepKeeps(s, run[0]);
      RunKeeps(Next(s, run[0]), run[1..]);
    }
  }

  predicate IsCreating(s: State, t: Thread, id: int) {
    t in s.pcs && s.pcs[t] == Creating(id)
  }

  /**
   In every interleaving the map never has the id that a creation is about to insert, so none is
   dropped, and no id is returned twice.  When the map's mutex is free, an id that is out is in the
   map or with exactly one creation: an erased timer's id is never seen outstanding.
   */
  lemma DuplicateIsNeverMet(run: seq<Action>, t: Thread, id: int)
    requires IsRun(Empty(), run)
    ensures var s := After(Empty(), run);
            s.leaked == {} &&
            (Enabled(s, Insert(t)) ==> s.pcs[t].id !in s.timers) &&
            (Enabled(s, Return(t)) ==> s.pcs[t].id !in s.free) &&
            (forall u, v | IsCreating(s, u, id) && IsCreating(s, v, id) :: u == v && id !in s.timers) &&
            (s.holder.None? ==>
               (1 <= id <= s.next && id !in s.free <==> id in s.timers || exists u :: IsCreating(s, u, id)))
  {
    assert Inv(Empty());
    RunKeeps(Empty(), run);
    var s := After(Empty(), run);
    hide IsRun, After;
    if t in s.pcs && !s.pcs[t].CreateMissed? {
      assert O.HeldBy(View(s), t, s.pcs[t].id);
    }
    forall u | IsCreating(s, u, id)
      ensures O.HeldBy(View(s), u, id)
    {
    }
    if s.holder.None? && O.InHand(View(s), id) {
      var u :| O.HeldBy(View(s), u, id);
      assert IsCreating(s, u, id);
    }
  }

  // ---------------------------------------------------------------------------------------------
  // What a creation and a removal amount to when no other thread interferes

  lemma RunOn(s: State, a: Action, rest: seq<Action>)
    requires Enabled(s, a) && IsRun(Next(s, a), rest)
    ensures IsRun(s, [a] + rest) && After(s, [a] + rest) == After(Next(s, a), rest)
  {
    assert ([a] + rest)[1..] == rest;
  }

  /** An undisturbed creation takes a free id, or else the next one, into the map. */
  lemma CreateIsRun(s: State, t: Thread, id: int)
    requires s.pcs == map[] && s.holder.None? && id !in s.timers
    requires if s.free != {} then id in s.free else id == s.next + 1
    ensures exists run ::
              IsRun(s, run) && After(s, run) == s.(timers := s.timers + {id}, free := s.free - {id},
                next := if s.free == {} then s.next + 1 else s.next)
  {
    var taken := s.(free := s.free - {id}, next := if s.free == {} then s.next + 1 else s.next,
                    pcs := map[t := Creating(id)]);
    var z := taken.(timers := s.timers + {id}, pcs := map[]);
    assert Enabled(taken, Insert(t)) && map[t := Creating(id)] - {t} == map[] && Next(taken, Insert(t)) == z;
    assert IsRun(z, []) && After(z, []) == z;
    hide IsRun, After;
    RunOn(taken, Insert(t), []);
    var rest := [Insert(t)] + [];
    if s.free != {} {
      assert Next(s, TakeFree(t, id)) == taken;
      RunOn(s, TakeFree(t, id), rest);
    } else {
      var missed := s.(pcs := map[t := CreateMissed]);
      assert map[t := CreateMissed][t := Creating(id)] == map[t := Creating(id)] && s.free - {id} == s.free;
      assert Next(missed, TakeNext(t)) == taken;
      RunOn(missed, TakeNext(t), rest);
      assert Next(s, SeeNone(t)) == missed;
      RunOn(s, SeeNone(t), [TakeNext(t)] + rest);
    }
  }

  /** An undisturbed removal takes a known timer out of the map and returns its id. */
  lemma RemoveIsRun(s: State, t: Thread, id: int)
    requires s.pcs == map[] && s.holder.None?
    ensures exists run ::
              IsRun(s, run) &&
              After(s, run) == if id in s.timers then s.(timers := s.timers - {id}, free := s.free + {id}) else s
  {
    var erased := s.(timers := s.timers - {id}, holder := Some(t), pcs := map[t := Removing(id)]);
    var z := s.(timers := s.timers - {id}, free := s.free + {id});
    assert map[t := Removing(id)] - {t} == map[] && Enabled(erased, Return(t)) && Next(erased, Return(t)) == z;
    assert IsRun(z, []) && After(z, []) == z && IsRun(s, []) && After(s, []) == s;
    hide IsRun, After;
    RunOn(erased, Return(t), []);
    if id in s.timers {
      assert Next(s, Erase(t, id)) == erased;
      RunOn(s, Erase(t, id), [Return(t)] + []);
    }
  }
}
