/**
 Exactly when interleaved boots, shutdowns and passes keep the service map, the name index and the
 tickers together.  Ownership of ids holds throughout; these three can come apart.
 */
module ServiceConditions {
  import opened ServiceSteps
  import opened ServiceTheorems
  import opened ServiceRuns
  import O = IdOwnership

  /** The action is one of thread `t`. */
  predicate By(a: Action, t: Thread) {
    match a
    case InsertTicker(_) => false
    case RemoveTicker(_) => false
    case UpdatePass => false
    case _ => a.t == t
  }

  predicate Others(t: Thread, run: seq<Action>) {
    forall i | 0 <= i < |run| :: !By(run[i], t)
  }

  lemma OthersLeave(s: State, a: Action, t: Thread)
    requires Enabled(s, a) && !By(a, t) && t in s.pcs
    ensures t in Next(s, a).pcs && Next(s, a).pcs[t] == s.pcs[t]
  {
    match a
    case TakeFree(_, _) =>
    case SeeNone(_) =>
    case TakeNext(_) =>
    case CheckId(_) =>
    case Initialize(_, _, _) =>
    case CheckName(_) =>
    case StartService(_, _, _) =>
    case BootTicker(_) =>
    case Insert(_) =>
    case BootReturn(_) =>
    case WithdrawById(_, _) =>
    case EraseName(_) =>
    case TakeName(_, _) =>
    case WithdrawNamed(_) =>
    case EraseTicker(_) =>
    case StopReturn(_) =>
    case InsertTicker(_) =>
    case RemoveTicker(_) =>
    case UpdatePass =>
  }

  /** What ownership says of a thread that has id `sid`: no other has it, and no service. */
  lemma OwnerIsAlone(s: State, t: Thread, sid: int)
    requires O.Owned(View(s)) && t in s.pcs && HandOf(s.pcs[t]) == O.Owning(sid)
    ensures sid >= 1 && sid !in s.services
    ensures forall u | u in s.pcs && HandOf(s.pcs[u]) == O.Owning(sid) :: u == t
  {
    assert O.HeldBy(View(s), t, sid);
    forall u | u in s.pcs && HandOf(s.pcs[u]) == O.Owning(sid)
      ensures u == t
    {
      assert O.HeldBy(View(s), u, sid);
    }
  }

  // ---------------------------------------------------------------------------------------------
  // Names

  /** Every service's name leads back to its id. */
  ghost predicate Indexed(services: map<int, Name>, names: map<Name, int>) {
    forall sid | sid in services :: services[sid] in names && names[services[sid]] == sid
  }

  predicate InUse(services: map<int, Name>, name: Name) {
    exists sid | sid in services :: services[sid] == name
  }

  /** The action writes or erases the name of a registered service. */
  predicate TouchesNameInUse(s: State, a: Action)
    requires Enabled(s, a)
  {
    match a
    case Insert(t) => InUse(s.services, s.pcs[t].name)
    case EraseName(t) => InUse(s.services, s.pcs[t].name)
    case TakeName(_, name) => InUse(s.services, name)
    case _ => false
  }

  /**
   A step keeps every service's name leading to it exactly when it does not touch the name of one:
   a boot's insertion, exactly when no service has its name by then.
   */
  lemma IndexedIff(s: State, a: Action)
    requires O.Owned(View(s)) && Enabled(s, a) && Indexed(s.services, s.names)
    ensures Indexed(Next(s, a).services, Next(s, a).names) <==> !TouchesNameInUse(s, a)
  {
    match a
    case Insert(t) => OwnerIsAlone(s, t, s.pcs[t].sid); InsertedIff(s.services, s.names, s.pcs[t].sid, s.pcs[t].name);
    case EraseName(t) => ErasedIff(s.services, s.names, s.pcs[t].name);
    case TakeName(_, name) => ErasedIff(s.services, s.names, name);
    case WithdrawById(_, _) =>
    case WithdrawNamed(_) =>
    case _ => NamesAreLeft(s, a);
  }

  lemma NamesAreLeft(s: State, a: Action)
    requires Enabled(s, a) && !a.Insert? && !a.EraseName? && !a.TakeName? && !a.WithdrawById? && !a.WithdrawNamed?
    ensures Next(s, a).services == s.services && Next(s, a).names == s.names
  {
    match a
    case TakeFree(_, _) =>
    case SeeNone(_) =>
    case TakeNext(_) =>
    case CheckId(_) =>
    case Initialize(_, _, _) =>
    case CheckName(_) =>
    case StartService(_, _, _) =>
    case BootTicker(_) =>
    case BootReturn(_) =>
    case EraseTicker(_) =>
    case StopReturn(_) =>
    case InsertTicker(_) =>
    case RemoveTicker(_) =>
    case UpdatePass =>
  }

  lemma InsertedIff(services: map<int, Name>, names: map<Name, int>, sid: int, name: Name)
    requires Indexed(services, names) && sid !in services
    ensures Indexed(services[sid := name], names[name := sid]) <==> !InUse(services, name)
  {
    var services' := services[sid := name];
    if InUse(services, name) {
      var other :| other in services && services[other] == name;
      assert other in services' && services'[other] == name;
    }
  }

  lemma ErasedIff(services: map<int, Name>, names: map<Name, int>, name: Name)
    requires Indexed(services, names)
    ensures Indexed(services, names - {name}) <==> !InUse(services, name)
  {
  }

  predicate NeverTouches(s: State, run: seq<Action>)
    requires IsRun(s, run)
    decreases |run|
  {
    run == [] || (!TouchesNameInUse(s, run[0]) && NeverTouches(Next(s, run[0]), run[1..]))
  }

  ghost predicate IndexedAllAlong(s: State, run: seq<Action>)
    requires IsRun(s, run)
    decreases |run|
  {
    Indexed(s.services, s.names) && (run == [] || IndexedAllAlong(Next(s, run[0]), run[1..]))
  }

  /** Names lead to their services all along a run exactly when no step touches a name in use. */
  lemma {:induction false} IndexedAllAlongIff(s: State, run: seq<Action>)
    requires O.Owned(View(s)) && IsRun(s, run) && Indexed(s.services, s.names)
    ensures IndexedAllAlong(s, run) <==> NeverTouches(s, run)
    decreases |run|
  {
    hide O.Owned, Enabled, Next, Indexed, TouchesNameInUse;
    if run != [] {
      IndexedIff(s, run[0]);
      StepKeeps(s, run[0]);
      if Indexed(Next(s, run[0]).services, Next(s, run[0]).names) {
        IndexedAllAlongIff(Next(s, run[0]), run[1..]);
      } else {
        NotIndexed(Next(s, run[0]), run[1..]);
      }
    }
  }

  lemma NotIndexed(s: State, run: seq<Action>)
    requires IsRun(s, run) && !Indexed(s.services, s.names)
    ensures !IndexedAllAlong(s, run)
  {
    hide Indexed;
  }

  // ---------------------------------------------------------------------------------------------
  // Tickers

  predicate Drops(a: Action, sid: int) {
    a == RemoveTicker(sid) || a == UpdatePass
  }

  /** Something drops the ticker and nobody asks for it again. */
  ghost predicate DroppedForGood(run: seq<Action>, sid: int) {
    exists i | 0 <= i < |run| :: Drops(run[i], sid) && InsertTicker(sid) !in run[i + 1..]
  }

  /** Whether the ticker is registered after the run, if it was or was not before. */
  predicate Ticks(run: seq<Action>, sid: int, ticks: bool) {
    if run == [] then ticks
    else Ticks(run[1..], sid, run[0] == InsertTicker(sid) || (ticks && !Drops(run[0], sid)))
  }

  lemma TickerStep(s: State, a: Action, t: Thread)
    requires O.Owned(View(s)) && Enabled(s, a) && !By(a, t) && t in s.pcs && s.pcs[t].BootReady?
    ensures var sid := s.pcs[t].sid;
            sid in Next(s, a).tickers <==> a == InsertTicker(sid) || (sid in s.tickers && !Drops(a, sid))
  {
    var sid := s.pcs[t].sid;
    OwnerIsAlone(s, t, sid);
    hide O.Owned, View;
    if a.BootTicker? || a.EraseTicker? {
      OthersTicker(s, a, t);
    } else if a.InsertTicker? || a.RemoveTicker? || a.UpdatePass? {
      TickersChange(s, a, sid);
    } else {
      hide Enabled, Next;
      TickersAreLeft(s, a);
    }
  }

  /** A boot or a shutdown of another thread is one of another id. */
  lemma OthersTicker(s: State, a: Action, t: Thread)
    requires Enabled(s, a) && (a.BootTicker? || a.EraseTicker?) && a.t != t && t in s.pcs && s.pcs[t].BootReady?
    requires forall u | u in s.pcs && HandOf(s.pcs[u]) == O.Owning(s.pcs[t].sid) :: u == t
    ensures s.pcs[t].sid in Next(s, a).tickers <==> s.pcs[t].sid in s.tickers
  {
    assert HandOf(s.pcs[a.t]) == O.Owning(s.pcs[a.t].sid);
  }

  lemma TickersChange(s: State, a: Action, sid: int)
    requires Enabled(s, a) && (a.InsertTicker? || a.RemoveTicker? || a.UpdatePass?) && sid >= 1 && sid !in s.services
    ensures sid in Next(s, a).tickers <==> a == InsertTicker(sid) || (sid in s.tickers && !Drops(a, sid))
  {
  }

  lemma TickersAreLeft(s: State, a: Action)
    requires Enabled(s, a) && !a.BootTicker? && !a.EraseTicker? && !a.InsertTicker? && !a.RemoveTicker?
    requires !a.UpdatePass?
    ensures Next(s, a).tickers == s.tickers
  {
    match a
    case TakeFree(_, _) =>
    case SeeNone(_) =>
    case TakeNext(_) =>
    case CheckId(_) =>
    case Initialize(_, _, _) =>
    case CheckName(_) =>
    case StartService(_, _, _) =>
    case Insert(_) =>
    case BootReturn(_) =>
    case WithdrawById(_, _) =>
    case EraseName(_) =>
    case TakeName(_, _) =>
    case WithdrawNamed(_) =>
    case StopReturn(_) =>
  }

  lemma {:induction false} TickerFollows(s: State, t: Thread, run: seq<Action>)
    requires O.Owned(View(s)) && t in s.pcs && s.pcs[t].BootReady? && IsRun(s, run) && Others(t, run)
    ensures var z := After(s, run);
            var sid := s.pcs[t].sid;
            t in z.pcs && z.pcs[t] == s.pcs[t] && (sid in z.tickers <==> Ticks(run, sid, sid in s.tickers))
    decreases |run|
  {
    hide O.Owned, Enabled, Next, By;
    if run != [] {
      OthersLeave(s, run[0], t);
      TickerStep(s, run[0], t);
      StepKeeps(s, run[0]);
      TickerFollows(Next(s, run[0]), t, run[1..]);
    }
  }

  lemma {:induction false} TicksIff(run: seq<Action>, sid: int, ticks: bool)
    ensures Ticks(run, sid, ticks) <==>
            !DroppedForGood(run, sid) && (ticks || InsertTicker(sid) in run)
    decreases |run|
  {
    hide DroppedForGood;
    if run == [] {
      NothingDropped(sid);
    } else {
      var a, rest := run[0], run[1..];
      TicksIff(rest, sid, a == InsertTicker(sid) || (ticks && !Drops(a, sid)));
      DroppedLater(run, sid);
      assert InsertTicker(sid) in run <==> a == InsertTicker(sid) || InsertTicker(sid) in rest;
    }
  }

  lemma NothingDropped(sid: int)
    ensures !DroppedForGood([], sid)
  {
  }

  lemma DroppedLater(run: seq<Action>, sid: int)
    requires run != []
    ensures DroppedForGood(run, sid) <==>
            (Drops(run[0], sid) && InsertTicker(sid) !in run[1..]) || DroppedForGood(run[1..], sid)
  {
    hide Drops;
    var rest := run[1..];
    forall i | 0 <= i < |rest|
      ensures rest[i] == run[i + 1] && rest[i + 1..] == run[i + 2..]
    {
    }
    if DroppedForGood(run, sid) {
      var i :| 0 <= i < |run| && Drops(run[i], sid) && InsertTicker(sid) !in run[i + 1..];
      if i > 0 {
        assert Drops(rest[i - 1], sid) && InsertTicker(sid) !in rest[i - 1 + 1..];
      }
    }
    if DroppedForGood(rest, sid) {
      var i :| 0 <= i < |rest| && Drops(rest[i], sid) && InsertTicker(sid) !in rest[i + 1..];
      assert Drops(run[i + 1], sid) && InsertTicker(sid) !in run[i + 1 + 1..];
    }
  }

  /**
   A service that asked for updates while it started has them when it is inserted, whatever other
   threads did in between, exactly when no pass and no removal came without another request after it.
   */
  lemma TickerIsKeptIff(s: State, t: Thread, run: seq<Action>)
    requires O.Owned(View(s)) && t in s.pcs && s.pcs[t].BootReady? && s.pcs[t].sid in s.tickers
    requires IsRun(s, run) && Others(t, run)
    ensures var z := After(s, run);
            var sid := s.pcs[t].sid;
            Enabled(z, Insert(t)) && sid in Next(z, Insert(t)).services &&
            (sid in Next(z, Insert(t)).tickers <==> !DroppedForGood(run, sid))
  {
    hide O.Owned, IsRun, After, DroppedForGood, Ticks;
    TickerFollows(s, t, run);
    TicksIff(run, s.pcs[t].sid, true);
  }

  // ---------------------------------------------------------------------------------------------
  // A shutdown by name that is overtaken

  /**
   What has become of the id that an erased name led to: the service of that name is still there;
   another shutdown has withdrawn what was there; the id is registered for nobody; it is registered
   for another service, since before the erasure or by a boot since.
   */
  datatype Stage = Kept | Stopping | Returned | Other(name: Name)

  predicate Withdraws(s: State, a: Action, sid: int)
    requires Enabled(s, a)
  {
    sid in s.services && match a
                         case WithdrawById(_, id) => id == sid
                         case WithdrawNamed(t) => s.pcs[t].sid == sid
                         case _ => false
  }

  predicate Returns(s: State, a: Action, sid: int)
    requires Enabled(s, a)
  {
    a.StopReturn? && s.pcs[a.t].sid == sid
  }

  predicate Inserts(s: State, a: Action, sid: int)
    requires Enabled(s, a)
  {
    a.Insert? && s.pcs[a.t].sid == sid
  }

  function Moved(s: State, a: Action, sid: int, stage: Stage): Stage
    requires Enabled(s, a)
  {
    match stage
    case Kept => if Withdraws(s, a, sid) then Stopping else Kept
    case Stopping => if Returns(s, a, sid) then Returned else Stopping
    case Returned => if Inserts(s, a, sid) then Other(s.pcs[a.t].name) else Returned
    case Other(_) => if Withdraws(s, a, sid) then Stopping else stage
  }

  function StageAfter(s: State, run: seq<Action>, sid: int, stage: Stage): Stage
    requires IsRun(s, run)
    decreases |run|
  {
    if run == [] then stage else StageAfter(Next(s, run[0]), run[1..], sid, Moved(s, run[0], sid, stage))
  }

  /** What a stage means, for an id that was registered under `name`. */
  ghost predicate At(s: State, sid: int, name: Name, stage: Stage) {
    match stage
    case Kept => sid in s.services && s.services[sid] == name
    case Stopping => sid !in s.services && exists u :: StopOwns(s, u, sid)
    case Returned => sid !in s.services
    case Other(n) => sid in s.services && s.services[sid] == n
  }

  lemma StageStep(s: State, a: Action, sid: int, name: Name, stage: Stage)
    requires O.Owned(View(s)) && Enabled(s, a) && At(s, sid, name, stage)
    ensures At(Next(s, a), sid, name, Moved(s, a, sid, stage))
  {
    if stage.Stopping? {
      var u :| StopOwns(s, u, sid);
      StoppingStep(s, a, sid, u);
    } else if a.Insert? {
      OwnerIsAlone(s, a.t, s.pcs[a.t].sid);
    } else {
      ServicesFollow(s, a, sid);
      if Withdraws(s, a, sid) {
        assert StopOwns(Next(s, a), a.t, sid);
      }
    }
  }

  lemma ServicesFollow(s: State, a: Action, sid: int)
    requires Enabled(s, a) && !a.Insert?
    ensures sid in Next(s, a).services <==> sid in s.services && !Withdraws(s, a, sid)
    ensures sid in Next(s, a).services ==> Next(s, a).services[sid] == s.services[sid]
    ensures Withdraws(s, a, sid) ==>
              !a.InsertTicker? && !a.RemoveTicker? && !a.UpdatePass? && StopOwns(Next(s, a), a.t, sid)
  {
    match a
    case WithdrawById(_, _) =>
    case WithdrawNamed(_) =>
    case EraseName(_) =>
    case TakeName(_, _) =>
    case _ => NamesAreLeft(s, a);
  }

  lemma StoppingStep(s: State, a: Action, sid: int, u: Thread)
    requires O.Owned(View(s)) && Enabled(s, a) && sid !in s.services && StopOwns(s, u, sid)
    ensures At(Next(s, a), sid, "", Moved(s, a, sid, Stopping))
  {
    OwnerIsAlone(s, u, sid);
    hide O.Owned, View;
    if a.Insert? {
      assert HandOf(s.pcs[a.t]) == O.Owning(s.pcs[a.t].sid);
      assert a.t != u;
      OthersLeave(s, a, u);
      assert StopOwns(Next(s, a), u, sid);
    } else {
      ServicesFollow(s, a, sid);
      if !By(a, u) {
        OthersLeave(s, a, u);
        assert StopOwns(Next(s, a), u, sid);
      } else if !a.StopReturn? {
        StopGoesOn(s, a, sid, u);
      }
    }
  }

  lemma StopGoesOn(s: State, a: Action, sid: int, u: Thread)
    requires Enabled(s, a) && By(a, u) && !a.StopReturn? && StopOwns(s, u, sid)
    ensures StopOwns(Next(s, a), u, sid)
  {
    match a
    case EraseName(_) =>
    case EraseTicker(_) =>
    case _ =>
  }

  lemma {:induction false} StageFollows(s: State, t: Thread, run: seq<Action>, stage: Stage)
    requires O.Owned(View(s)) && t in s.pcs && s.pcs[t].StopNamed? && IsRun(s, run) && Others(t, run)
    requires At(s, s.pcs[t].sid, s.pcs[t].name, stage)
    ensures var z := After(s, run);
            t in z.pcs && z.pcs[t] == s.pcs[t] &&
            At(z, s.pcs[t].sid, s.pcs[t].name, StageAfter(s, run, s.pcs[t].sid, stage))
    decreases |run|
  {
    hide O.Owned, Enabled, Next, By, At, Moved;
    if run != [] {
      OthersLeave(s, run[0], t);
      StageStep(s, run[0], s.pcs[t].sid, s.pcs[t].name, stage);
      StepKeeps(s, run[0]);
      StageFollows(Next(s, run[0]), t, run[1..], Moved(s, run[0], s.pcs[t].sid, stage));
    }
  }

  /** The stage in which a shutdown by name finds the id that the name leads to. */
  ghost function StageNow(s: State, sid: int, name: Name): Stage {
    if sid in s.services then (if s.services[sid] == name then Kept else Other(s.services[sid]))
    else if exists u :: StopOwns(s, u, sid) then Stopping
    else Returned
  }

  lemma StageNowIsAt(s: State, sid: int, name: Name)
    ensures At(s, sid, name, StageNow(s, sid, name))
  {
  }

  /**
   What a shutdown by name takes down when it comes to it, whatever other threads did since it
   erased the name: a service of another name exactly when the name led to one already and it was
   not withdrawn since, or since then the id was inserted under that name and not withdrawn again;
   an id that was registered is inserted again only after it was withdrawn and returned.
   */
  lemma OvertakenStopTakesIff(s: State, t: Thread, name: Name, run: seq<Action>)
    requires O.Owned(View(s)) && Enabled(s, Action.TakeName(t, name)) && name in s.names && s.names[name] >= 0
    requires IsRun(Next(s, Action.TakeName(t, name)), run) && Others(t, run)
    ensures var sid := s.names[name];
            var s1 := Next(s, Action.TakeName(t, name));
            var z := After(s1, run);
            var stage := StageAfter(s1, run, sid, StageNow(s, sid, name));
            Enabled(z, WithdrawNamed(t)) &&
            (sid in z.services <==> stage.Kept? || stage.Other?) &&
            (sid in z.services && z.services[sid] != name <==> stage.Other? && stage.name != name) &&
            Next(z, WithdrawNamed(t)).services == z.services - {sid}
  {
    var sid := s.names[name];
    TakeNameKeeps(s, t, name);
    StageNowIsAt(Next(s, Action.TakeName(t, name)), sid, name);
    hide O.Owned, IsRun, After, StageAfter, StageNow;
    StageFollows(Next(s, Action.TakeName(t, name)), t, run, StageNow(s, sid, name));
  }

  lemma TakeNameKeeps(s: State, t: Thread, name: Name)
    requires O.Owned(View(s)) && Enabled(s, Action.TakeName(t, name)) && name in s.names && s.names[name] >= 0
    ensures var s1 := Next(s, Action.TakeName(t, name));
            O.Owned(View(s1)) && t in s1.pcs && s1.pcs[t] == StopNamed(s.names[name], name) &&
            StageNow(s1, s.names[name], name) == StageNow(s, s.names[name], name)
  {
    StepKeeps(s, Action.TakeName(t, name));
    var s1, sid := Next(s, Action.TakeName(t, name)), s.names[name];
    forall u
      ensures StopOwns(s1, u, sid) <==> StopOwns(s, u, sid)
    {
    }
  }

  // ---------------------------------------------------------------------------------------------
  // A name that no service has

  /** `name` is taken, by no service and by no boot or shutdown that could give it one or erase it. */
  ghost predicate Blocked(s: State, name: Name) {
    name in s.names && !InUse(s.services, name) &&
    forall t | t in s.pcs :: !HoldsName(s.pcs[t], name)
  }

  predicate HoldsName(pc: Pc, name: Name) {
    (pc.BootUnique? || pc.BootTicking? || pc.BootReady? || pc.StopWithdrawn?) && pc.name == name
  }

  /** Only a shutdown by that name frees such a name; until then no boot passes the check of it. */
  lemma BlockedIff(s: State, name: Name, a: Action)
    requires Enabled(s, a) && Blocked(s, name)
    ensures Blocked(Next(s, a), name) <==> !(a.TakeName? && a.name == name)
    ensures a.CheckName? && s.pcs[a.t].name == name ==> Next(s, a).pcs[a.t].BootFailed?
    ensures a.TakeName? && a.name == name ==> name !in Next(s, a).names
  {
  }

  ghost predicate BlockedAllAlong(s: State, name: Name, run: seq<Action>)
    requires IsRun(s, run)
    decreases |run|
  {
    Blocked(s, name) && (run == [] || BlockedAllAlong(Next(s, run[0]), name, run[1..]))
  }

  lemma {:induction false} BlockedAllAlongIff(s: State, name: Name, run: seq<Action>)
    requires IsRun(s, run) && Blocked(s, name)
    ensures BlockedAllAlong(s, name, run) <==> forall i | 0 <= i < |run| :: !(run[i].TakeName? && run[i].name == name)
    decreases |run|
  {
    hide Enabled, Next, Blocked;
    if run != [] {
      BlockedIff(s, name, run[0]);
      var s1, rest := Next(s, run[0]), run[1..];
      assert forall i | 0 <= i < |rest| :: rest[i] == run[i + 1];
      if Blocked(s1, name) {
        BlockedAllAlongIff(s1, name, rest);
        if forall i | 0 <= i < |rest| :: !(rest[i].TakeName? && rest[i].name == name) {
          forall i | 0 <= i < |run|
            ensures !(run[i].TakeName? && run[i].name == name)
          {
            assert i > 0 ==> run[i] == rest[i - 1];
          }
        }
      } else {
        NotBlocked(s1, name, rest);
      }
    }
  }

  lemma NotBlocked(s: State, name: Name, run: seq<Action>)
    requires IsRun(s, run) && !Blocked(s, name)
    ensures !BlockedAllAlong(s, name, run)
  {
    hide Blocked;
  }

  /** That shutdown, undisturbed, makes the name free for the next boot. */
  lemma StopUnblocks(s: State, name: Name, o: Outcome)
    requires Settled(s) && Blocked(s, name) && o.created && o.initialized && o.started && o.name == name && Named(o)
    ensures !Accepted(s, o)
    ensures Reaches(s, StoppedByName(s, name)) && Settled(StoppedByName(s, name)) && Accepted(StoppedByName(s, name), o)
  {
    hide Reaches, O.Owned, Blocked;
    StopByNameIsReached(s, name);
    SettledReach(s, StoppedByName(s, name));
    BlockedSays(s, name);
  }

  lemma BlockedSays(s: State, name: Name)
    requires Blocked(s, name)
    ensures name in s.names
  {
  }
}
