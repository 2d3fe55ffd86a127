/** The registry's threads are clients of the id allocator, so every service id has one owner. */
module ServiceTheorems {
  import opened Wrappers
  import opened ServiceSteps
  import O = IdOwnership

  /** What a boot or shutdown has in hand. */
  function HandOf(pc: Pc): O.Hand {
    match pc
    case BootMissed => O.Looking
    case StopNamed(_, _) => O.Busy
    case _ => O.Owning(pc.sid)
  }

  /** The registry as an id client: the service map is its register of ids. */
  function View(s: State): O.State {
    O.State(s.free, s.next, s.services.Keys, s.leaked, map t | t in s.pcs :: HandOf(s.pcs[t]))
  }

  lemma ViewGo(s: State, t: Thread, pc: Pc)
    ensures View(Go(s, t, pc)) == View(s).(hands := View(s).hands[t := HandOf(pc)])
    ensures View(Rest(s, t)) == View(s).(hands := View(s).hands - {t})
  {
    assert View(Go(s, t, pc)).hands == View(s).hands[t := HandOf(pc)];
    assert View(Rest(s, t)).hands == View(s).hands - {t};
  }

  /** The step of the id client that a step of the registry is, if it is one. */
  function IdStep(s: State, a: Action): Option<O.Action>
    requires Enabled(s, a)
  {
    match a
    case TakeFree(t, sid) => Some(O.TakeFree(t, sid))
    case SeeNone(t) => Some(O.SeeNone(t))
    case TakeNext(t) => Some(O.TakeNext(t))
    case Insert(t) => Some(O.Publish(t))
    case BootReturn(t) => Some(O.GiveBack(t))
    case WithdrawById(t, sid) => if sid in s.services then Some(O.Withdraw(t, sid)) else None
    case TakeName(t, name) => if name in s.names && s.names[name] >= 0 then Some(O.Begin(t)) else None
    case WithdrawNamed(t) => Some(if s.pcs[t].sid in s.services then O.Withdraw(t, s.pcs[t].sid) else O.End(t))
    case StopReturn(t) => Some(O.GiveBack(t))
    case _ => None
  }

  /** The step of a registry is a step of the id client, or does not concern ids. */
  predicate Refines(s: State, a: Action)
    requires Enabled(s, a)
  {
    match IdStep(s, a)
    case Some(b) => O.Enabled(View(s), b) && View(Next(s, a)) == O.Next(View(s), b)
    case None => View(Next(s, a)) == View(s)
  }

  lemma StepRefines(s: State, a: Action)
    requires O.Owned(View(s)) && Enabled(s, a)
    ensures Refines(s, a)
  {
    hide O.Owned, Refines, Enabled;
    if Allocates(a) {
      AllocationRefines(s, a);
    } else if GivesUp(a) {
      EndRefines(s, a);
    } else if Withdraws(a) {
      WithdrawalRefines(s, a);
    } else if Boots(a) {
      BootRefines(s, a);
    } else {
      QuietRefines(s, a);
    }
  }

  /** The actions of the allocator. */
  predicate Allocates(a: Action) {
    a.TakeFree? || a.SeeNone? || a.TakeNext?
  }

  /** The actions with which a thread gives its id to the registry or back to the allocator. */
  predicate GivesUp(a: Action) {
    a.Insert? || a.BootReturn? || a.StopReturn?
  }

  predicate Withdraws(a: Action) {
    a.WithdrawById? || a.TakeName? || a.WithdrawNamed?
  }

  /** The actions of a boot between its allocation and its end. */
  predicate Boots(a: Action) {
    a.CheckId? || a.Initialize? || a.CheckName? || a.StartService? || a.BootTicker?
  }

  lemma AllocationRefines(s: State, a: Action)
    requires Enabled(s, a) && Allocates(a)
    ensures Refines(s, a)
  {
    match a
    case TakeFree(t, sid) => ViewGo(s.(free := s.free - {sid}), t, BootAllocated(sid));
    case SeeNone(t) => ViewGo(s, t, BootMissed);
    case TakeNext(t) => ViewGo(s.(next := s.next + 1), t, BootAllocated(s.next + 1));
  }

  lemma EndRefines(s: State, a: Action)
    requires O.Owned(View(s)) && Enabled(s, a) && GivesUp(a)
    ensures Refines(s, a)
  {
    if a.Insert? {
      assert O.HeldBy(View(s), a.t, s.pcs[a.t].sid);
    }
    hide O.Owned;
    match a
    case Insert(t) => InsertRefines(s, t);
    case BootReturn(t) => ViewGo(s.(free := s.free + {s.pcs[t].sid}), t, BootMissed);
    case StopReturn(t) => ViewGo(s.(free := s.free + {s.pcs[t].sid}), t, BootMissed);
  }

  lemma BootRefines(s: State, a: Action)
    requires O.Owned(View(s)) && Enabled(s, a) && Boots(a)
    ensures Refines(s, a)
  {
    if a.CheckId? {
      assert O.HeldBy(View(s), a.t, s.pcs[a.t].sid);
    }
    hide O.Owned;
    match a
    case CheckId(t) => SameHand(s, t, BootChecked(s.pcs[t].sid));
    case Initialize(t, ok, name) =>
      SameHand(s, t, BootFailed(s.pcs[t].sid));
      SameHand(s, t, BootNamed(s.pcs[t].sid, name));
    case CheckName(t) =>
      SameHand(s, t, BootFailed(s.pcs[t].sid));
      SameHand(s, t, BootUnique(s.pcs[t].sid, s.pcs[t].name));
    case StartService(t, ok, ticks) =>
      SameHand(s, t, BootFailed(s.pcs[t].sid));
      SameHand(s, t, BootTicking(s.pcs[t].sid, s.pcs[t].name));
      SameHand(s, t, BootReady(s.pcs[t].sid, s.pcs[t].name));
    case BootTicker(t) => SameHand(s.(tickers := s.tickers + {s.pcs[t].sid}), t,
           BootReady(s.pcs[t].sid, s.pcs[t].name));
  }

  lemma WithdrawalRefines(s: State, a: Action)
    requires Enabled(s, a) && Withdraws(a)
    ensures Refines(s, a)
  {
    match a
    case WithdrawById(t, sid) =>
      if sid in s.services {
        WithdrawRefines(s, t, sid, StopWithdrawn(sid, s.services[sid]));
      }
    case TakeName(t, name) =>
      if name in s.names {
        ViewGo(s.(names := s.names - {name}), t, StopNamed(s.names[name], name));
      }
    case WithdrawNamed(t) =>
      ViewGo(s, t, s.pcs[t]);
      WithdrawRefines(s, t, s.pcs[t].sid, StopUnnamed(s.pcs[t].sid));
  }

  lemma QuietRefines(s: State, a: Action)
    requires Enabled(s, a) && !Allocates(a) && !GivesUp(a) && !Withdraws(a) && !Boots(a)
    ensures Refines(s, a)
  {
    match a
    case EraseName(t) => SameHand(s.(names := s.names - {s.pcs[t].name}), t, StopUnnamed(s.pcs[t].sid));
    case EraseTicker(t) => SameHand(s.(tickers := s.tickers - {s.pcs[t].sid}), t, StopSilent(s.pcs[t].sid));
    case InsertTicker(sid) =>
    case RemoveTicker(sid) =>
    case UpdatePass =>
  }

  lemma SameHand(s: State, t: Thread, pc: Pc)
    requires t in s.pcs && HandOf(s.pcs[t]) == HandOf(pc)
    ensures View(Go(s, t, pc)) == View(s)
  {
    ViewGo(s, t, pc);
    assert View(s).hands[t := HandOf(pc)] == View(s).hands;
  }

  lemma InsertRefines(s: State, t: Thread)
    requires t in s.pcs && s.pcs[t].BootReady? && s.pcs[t].sid !in s.services
    ensures O.Enabled(View(s), O.Publish(t))
    ensures View(DoInsert(s, t, s.pcs[t].sid, s.pcs[t].name)) == O.Next(View(s), O.Publish(t))
  {
    var inserted := s.(services := s.services[s.pcs[t].sid := s.pcs[t].name],
      names := s.names[s.pcs[t].name := s.pcs[t].sid]);
    ViewGo(inserted, t, s.pcs[t]);
    assert inserted.services.Keys == s.services.Keys + {s.pcs[t].sid};
  }

  lemma WithdrawRefines(s: State, t: Thread, sid: int, pc: Pc)
    requires HandOf(pc) == O.Owning(sid)
    ensures View(Go(s.(services := s.services - {sid}), t, pc)) ==
            View(s).(registry := View(s).registry - {sid}, hands := View(s).hands[t := O.Owning(sid)])
  {
    var withdrawn := s.(services := s.services - {sid});
    ViewGo(withdrawn, t, pc);
    assert withdrawn.services.Keys == s.services.Keys - {sid};
  }

  lemma StepKeeps(s: State, a: Action)
    requires O.Owned(View(s)) && Enabled(s, a)
    ensures O.Owned(View(Next(s, a))) && Next(s, a).leaked == s.leaked
  {
    hide O.Owned, Enabled, Next, O.Next, O.Enabled, IdStep;
    StepRefines(s, a);
    if IdStep(s, a).Some? {
      O.StepKeepsOwned(View(s), IdStep(s, a).value);
    }
    assert View(Next(s, a)).leaked == View(s).leaked;
  }

  /** States in which registration has ended: no thread is under way and ids are in order. */
  ghost predicate Settled(s: State) {
    s.pcs == map[] && O.Owned(View(s))
  }

  lemma {:induction false} RunKeeps(s: State, run: seq<Action>)
    requires O.Owned(View(s)) && IsRun(s, run)
    ensures O.Owned(View(After(s, run))) && After(s, run).leaked == s.leaked
    decreases |run|
  {
    hide O.Owned, Enabled, Next;
    if run != [] {
      StepKeeps(s, run[0]);
      RunKeeps(Next(s, run[0]), run[1..]);
    }
  }

  ghost predicate BootOwns(s: State, t: Thread, sid: int) {
    t in s.pcs &&
    match s.pcs[t]
    case BootMissed => false
    case StopWithdrawn(_, _) => false
    case StopNamed(_, _) => false
    case StopUnnamed(_) => false
    case StopSilent(_) => false
    case _ => s.pcs[t].sid == sid
  }

  ghost predicate StopOwns(s: State, t: Thread, sid: int) {
    t in s.pcs && (s.pcs[t].StopWithdrawn? || s.pcs[t].StopUnnamed? || s.pcs[t].StopSilent?) && s.pcs[t].sid == sid
  }

  lemma OwnsIff(s: State, t: Thread, sid: int)
    ensures O.HeldBy(View(s), t, sid) <==> BootOwns(s, t, sid) || StopOwns(s, t, sid)
  {
  }

  /**
   In every interleaving each outstanding service id belongs to exactly one of the service map, one
   boot under way, one shutdown under way, or the ids that registration had already leaked.
   */
  lemma OneOwnerPerServiceId(start: State, run: seq<Action>, sid: int)
    requires Settled(start) && IsRun(start, run)
    ensures var s := After(start, run);
            var outstanding := 1 <= sid <= s.next && sid !in s.free;
            s.leaked == start.leaked &&
            (outstanding <==> sid in s.services || sid in s.leaked || exists t ::
              BootOwns(s, t, sid) || StopOwns(s, t, sid)) &&
            (sid in s.services ==> sid !in s.leaked && forall t :: !BootOwns(s, t, sid) && !StopOwns(s, t, sid)) &&
            (forall t, u | (BootOwns(s, t, sid) || StopOwns(s, t, sid)) &&
            (BootOwns(s, u, sid) || StopOwns(s, u, sid)) ::
               t == u && sid !in s.leaked)
  {
    RunKeeps(start, run);
    var s := After(start, run);
    hide IsRun, After;
    forall t
      ensures O.HeldBy(View(s), t, sid) <==> BootOwns(s, t, sid) || StopOwns(s, t, sid)
    {
      OwnsIff(s, t, sid);
    }
    hide BootOwns, StopOwns, View;
    OwnedSays(View(s), s, sid);
  }

  lemma OwnedSays(v: O.State, s: State, sid: int)
    requires v == View(s) && O.Owned(v)
    requires forall t :: O.HeldBy(v, t, sid) <==> BootOwns(s, t, sid) || StopOwns(s, t, sid)
    ensures var outstanding := 1 <= sid <= s.next && sid !in s.free;
            (outstanding <==> sid in s.services || sid in s.leaked || exists t ::
              BootOwns(s, t, sid) || StopOwns(s, t, sid)) &&
            (sid in s.services ==> sid !in s.leaked && forall t :: !BootOwns(s, t, sid) && !StopOwns(s, t, sid)) &&
            (forall t, u | (BootOwns(s, t, sid) || StopOwns(s, t, sid)) &&
            (BootOwns(s, u, sid) || StopOwns(s, u, sid)) ::
               t == u && sid !in s.leaked)
  {
    hide BootOwns, StopOwns, O.HeldBy;
  }

  /**
   In every interleaving the "Service ID Repeated" branch is not taken, the insertion overwrites no
   service, and an id is returned only while it is not free.
   */
  lemma IdsAreNeverRepeated(start: State, run: seq<Action>, t: Thread)
    requires Settled(start) && IsRun(start, run)
    ensures var s := After(start, run);
            (Enabled(s, CheckId(t)) ==> s.pcs[t].sid !in s.services) &&
            (Enabled(s, Insert(t)) ==> s.pcs[t].sid !in s.services) &&
            (Enabled(s, BootReturn(t)) || Enabled(s, StopReturn(t)) ==> s.pcs[t].sid !in s.free)
  {
    RunKeeps(start, run);
    var s := After(start, run);
    hide IsRun, After;
    if t in s.pcs && HandOf(s.pcs[t]).Owning? {
      assert O.HeldBy(View(s), t, s.pcs[t].sid);
    }
  }
}
