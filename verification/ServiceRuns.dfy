/**
 What each call on the registry amounts to when no other thread interferes, and the proof that it
 is a run of the locked sections; ownership of ids therefore holds between any two calls.
 */
module ServiceRuns {
  import opened Collections
  import opened Identifiers
  import opened ServiceSteps
  import opened ServiceTheorems
  import O = IdOwnership

  /** What the factory and the service code answer to a boot. */
  datatype Outcome = Outcome(created: bool, initialized: bool, name: Name, started: bool, ticks: bool)

  ghost predicate Reaches(s: State, s': State) {
    exists run :: IsRun(s, run) && After(s, run) == s'
  }

  lemma Stay(s: State)
    ensures Reaches(s, s)
  {
    assert IsRun(s, []) && After(s, []) == s;
  }

  lemma ReachExtends(s0: State, s: State, a: Action)
    requires Reaches(s0, s) && Enabled(s, a)
    ensures Reaches(s0, Next(s, a))
  {
    hide Enabled, Next, IsRun, After;
    var run :| IsRun(s0, run) && After(s0, run) == s;
    RunExtends(s0, run, a);
  }

  /** Names and ids are mutually inverse. */
  ghost predicate Mutual(services: map<int, Name>, names: map<Name, int>) {
    (forall sid | sid in services :: services[sid] in names && names[services[sid]] == sid) &&
    (forall n | n in names :: names[n] in services && services[names[n]] == n)
  }

  /** Between two calls of a registry that only one thread uses. */
  ghost predicate Orderly(s: State) {
    Settled(s) && Mutual(s.services, s.names)
  }

  function Outstanding(s: State): set<int> {
    Upto(s.next) - s.free
  }

  lemma OrderlySays(s: State)
    requires Settled(s)
    ensures s.next >= 0 && s.free <= Upto(s.next)
    ensures Outstanding(s) == s.services.Keys + s.leaked && s.services.Keys !! s.leaked
    ensures forall sid | sid in s.services :: sid >= 1
  {
    forall id
      ensures !O.InHand(View(s), id)
    {
    }
  }

  /** The converse: what the class has to keep. */
  lemma SettledWhen(s: State)
    requires s.pcs == map[] && s.next >= 0 && s.free <= Upto(s.next)
    requires Outstanding(s) == s.services.Keys + s.leaked && s.services.Keys !! s.leaked
    ensures Settled(s)
  {
    assert forall id | id in s.services.Keys + s.leaked :: id in Upto(s.next) && id !in s.free;
    forall id | 1 <= id <= s.next
      ensures id in s.free || id in s.services || id in s.leaked
    {
      assert id in Upto(s.next);
    }
  }

  /** `sid` is an id the allocator may hand out next. */
  predicate Allocatable(s: State, sid: int) {
    if s.free != {} then sid in s.free else sid == s.next + 1
  }

  function Allocated(s: State, sid: int): State {
    if s.free != {} then s.(free := s.free - {sid}) else s.(next := s.next + 1)
  }

  predicate Named(o: Outcome) {
    o.name != "" && o.name != "UNKNOWN"
  }

  predicate Accepted(s: State, o: Outcome) {
    o.created && o.initialized && Named(o) && o.name !in s.names && o.started
  }

  function Registered(s: State, sid: int, o: Outcome): State {
    s.(services := s.services[sid := o.name], names := s.names[o.name := sid],
       tickers := if o.ticks then s.tickers + {sid} else s.tickers)
  }

  /** BootService. */
  function Booted(s: State, sid: int, o: Outcome): State {
    if !o.created then s
    else if Accepted(s, o) then Registered(Allocated(s, sid), sid, o)
    else Allocated(s, sid).(free := Allocated(s, sid).free + {sid})
  }

  /** ShutdownService by id. */
  function StoppedById(s: State, sid: int): State {
    if sid !in s.services then s
    else s.(services := s.services - {sid}, names := s.names - {s.services[sid]}, tickers := s.tickers - {sid},
            free := s.free + {sid})
  }

  /** ShutdownService by name. */
  function StoppedByName(s: State, name: Name): State {
    if name !in s.names then s
    else
      var sid := s.names[name];
      var rest := s.(names := s.names - {name});
      if sid < 0 || sid !in s.services then rest
      else rest.(services := s.services - {sid}, tickers := s.tickers - {sid}, free := s.free + {sid})
  }

  // ---------------------------------------------------------------------------------------------
  // Each call is a run

  lemma AllocationIsRun(s: State, sid: int)
    requires Settled(s) && Allocatable(s, sid)
    ensures Reaches(s, Go(Allocated(s, sid), 0, BootAllocated(sid))) && sid !in s.services && sid >= 1
  {
    OrderlySays(s);
    hide O.Owned, Reaches;
    Stay(s);
    if s.free != {} {
      ReachExtends(s, s, TakeFree(0, sid));
      assert sid in Upto(s.next);
    } else {
      ReachExtends(s, s, SeeNone(0));
      var s1 := Go(s, 0, BootMissed);
      ReachExtends(s, s1, TakeNext(0));
      assert Next(s1, TakeNext(0)) == Go(Allocated(s, sid), 0, BootAllocated(sid));
      assert s.services.Keys <= Outstanding(s);
    }
  }

  /** From the check of the id on, whatever other threads are doing. */
  lemma BootContinues(s0: State, a: State, t: Thread, sid: int, o: Outcome)
    requires t !in a.pcs && sid !in a.services && o.created
    requires Reaches(s0, Go(a, t, BootAllocated(sid)))
    ensures Reaches(s0, if Accepted(a, o) then Registered(a, sid, o) else a.(free := a.free + {sid}))
  {
    hide Reaches;
    var failed := Go(a, t, BootFailed(sid));
    ReachExtends(s0, Go(a, t, BootAllocated(sid)), CheckId(t));
    assert Next(Go(a, t, BootAllocated(sid)), CheckId(t)) == Go(a, t, BootChecked(sid));
    ReachExtends(s0, Go(a, t, BootChecked(sid)), Initialize(t, o.initialized, o.name));
    if !o.initialized || !Named(o) {
      assert Next(Go(a, t, BootChecked(sid)), Initialize(t, o.initialized, o.name)) == failed;
      FailureReturns(s0, a, t, sid);
      return;
    }
    assert Next(Go(a, t, BootChecked(sid)), Initialize(t, o.initialized, o.name)) == Go(a, t, BootNamed(sid, o.name));
    NamedContinues(s0, a, t, sid, o);
  }

  lemma NamedContinues(s0: State, a: State, t: Thread, sid: int, o: Outcome)
    requires t !in a.pcs && o.created && o.initialized && Named(o)
    requires Reaches(s0, Go(a, t, BootNamed(sid, o.name)))
    ensures Reaches(s0, if Accepted(a, o) then Registered(a, sid, o) else a.(free := a.free + {sid}))
  {
    hide Reaches;
    var failed := Go(a, t, BootFailed(sid));
    ReachExtends(s0, Go(a, t, BootNamed(sid, o.name)), CheckName(t));
    if o.name in a.names {
      assert Next(Go(a, t, BootNamed(sid, o.name)), CheckName(t)) == failed;
      FailureReturns(s0, a, t, sid);
      return;
    }
    assert Next(Go(a, t, BootNamed(sid, o.name)), CheckName(t)) == Go(a, t, BootUnique(sid, o.name));
    ReachExtends(s0, Go(a, t, BootUnique(sid, o.name)), StartService(t, o.started, o.ticks));
    if !o.started {
      assert Next(Go(a, t, BootUnique(sid, o.name)), StartService(t, o.started, o.ticks)) == failed;
      FailureReturns(s0, a, t, sid);
      return;
    }
    BootFinishes(s0, a, t, sid, o);
  }

  lemma FailureReturns(s0: State, a: State, t: Thread, sid: int)
    requires t !in a.pcs && Reaches(s0, Go(a, t, BootFailed(sid)))
    ensures Reaches(s0, a.(free := a.free + {sid}))
  {
    hide Reaches;
    ReachExtends(s0, Go(a, t, BootFailed(sid)), BootReturn(t));
    assert Next(Go(a, t, BootFailed(sid)), BootReturn(t)) == a.(free := a.free + {sid});
  }

  lemma BootFinishes(s0: State, a: State, t: Thread, sid: int, o: Outcome)
    requires t !in a.pcs && o.started
    requires Reaches(s0, Next(Go(a, t, BootUnique(sid, o.name)), StartService(t, o.started, o.ticks)))
    ensures Reaches(s0, Registered(a, sid, o))
  {
    hide Reaches;
    var ticking := if o.ticks then a.(tickers := a.tickers + {sid}) else a;
    if o.ticks {
      assert Next(Go(a, t, BootUnique(sid, o.name)), StartService(t, o.started, o.ticks)) ==
               Go(a, t, BootTicking(sid, o.name));
      ReachExtends(s0, Go(a, t, BootTicking(sid, o.name)), BootTicker(t));
      assert Next(Go(a, t, BootTicking(sid, o.name)), BootTicker(t)) == Go(ticking, t, BootReady(sid, o.name));
    } else {
      assert Next(Go(a, t, BootUnique(sid, o.name)), StartService(t, o.started, o.ticks)) ==
               Go(ticking, t, BootReady(sid, o.name));
    }
    ReachExtends(s0, Go(ticking, t, BootReady(sid, o.name)), Insert(t));
    assert Next(Go(ticking, t, BootReady(sid, o.name)), Insert(t)) == Registered(a, sid, o);
  }

  lemma BootIsRun(s: State, sid: int, o: Outcome)
    requires Orderly(s) && Allocatable(s, sid)
    ensures Reaches(s, Booted(s, sid, o)) && Orderly(Booted(s, sid, o)) && Booted(s, sid, o).leaked == s.leaked
    ensures var b := Booted(s, sid, o);
            if o.created && o.initialized && o.name != "" && o.name != "UNKNOWN" && o.name !in s.names && o.started then
              b.services == s.services[sid := o.name] && b.names == s.names[o.name := sid] &&
              b.tickers == s.tickers + if o.ticks then {sid} else {}
            else
              b.services == s.services && b.names == s.names && b.tickers == s.tickers
  {
    BootIsReached(s, sid, o);
    hide Reaches, Orderly, Allocatable;
  }

  lemma BootIsReached(s: State, sid: int, o: Outcome)
    requires Orderly(s) && Allocatable(s, sid)
    ensures Reaches(s, Booted(s, sid, o)) && Orderly(Booted(s, sid, o)) && Booted(s, sid, o).leaked == s.leaked
  {
    hide Reaches, O.Owned;
    if !o.created {
      Stay(s);
    } else {
      AllocationIsRun(s, sid);
      BootContinues(s, Allocated(s, sid), 0, sid, o);
      SettledReach(s, Booted(s, sid, o));
    }
  }

  lemma SettledReach(s: State, s': State)
    requires Settled(s) && Reaches(s, s') && s'.pcs == map[]
    ensures Settled(s') && s'.leaked == s.leaked
  {
    var run :| IsRun(s, run) && After(s, run) == s';
    hide O.Owned, IsRun, After;
    RunKeeps(s, run);
  }

  lemma StopByIdIsRun(s: State, sid: int)
    requires Orderly(s)
    ensures Reaches(s, StoppedById(s, sid)) && Orderly(StoppedById(s, sid)) && StoppedById(s, sid).leaked == s.leaked
    ensures var z := StoppedById(s, sid);
            if sid in s.services then
              z.services == s.services - {sid} && z.names == s.names - {s.services[sid]} &&
              z.tickers == s.tickers - {sid} && z.free == s.free + {sid} && z.next == s.next
            else
              z == s
  {
    hide Reaches, O.Owned;
    Stay(s);
    if sid in s.services {
      var s1 := s.(services := s.services - {sid});
      ReachExtends(s, s, WithdrawById(0, sid));
      var s2 := s1.(names := s.names - {s.services[sid]});
      ReachExtends(s, Go(s1, 0, StopWithdrawn(sid, s.services[sid])), EraseName(0));
      assert Next(Go(s1, 0, StopWithdrawn(sid, s.services[sid])), EraseName(0)) == Go(s2, 0, StopUnnamed(sid));
      StopFinishes(s, s2, 0, sid);
      SettledReach(s, StoppedById(s, sid));
    }
  }

  /** From the erased service on, whatever other threads are doing. */
  lemma StopFinishes(s0: State, s: State, t: Thread, sid: int)
    requires t !in s.pcs && Reaches(s0, Go(s, t, StopUnnamed(sid)))
    ensures Reaches(s0, s.(tickers := s.tickers - {sid}, free := s.free + {sid}))
  {
    hide Reaches;
    var s1 := s.(tickers := s.tickers - {sid});
    ReachExtends(s0, Go(s, t, StopUnnamed(sid)), EraseTicker(t));
    assert Next(Go(s, t, StopUnnamed(sid)), EraseTicker(t)) == Go(s1, t, StopSilent(sid));
    ReachExtends(s0, Go(s1, t, StopSilent(sid)), StopReturn(t));
    assert Next(Go(s1, t, StopSilent(sid)), StopReturn(t)) == s1.(free := s.free + {sid});
  }

  /** Between calls, shutting a service down by its name is shutting it down by its id. */
  lemma StopByNameIsStopById(s: State, name: Name)
    requires Orderly(s)
    ensures StoppedByName(s, name) == if name in s.names then StoppedById(s, s.names[name]) else s
  {
    OrderlySays(s);
  }

  lemma StopByNameIsRun(s: State, name: Name)
    requires Orderly(s)
    ensures Reaches(s, StoppedByName(s, name)) && Orderly(StoppedByName(s, name)) &&
            StoppedByName(s, name).leaked == s.leaked
    ensures var z := StoppedByName(s, name);
            if name in s.names then
              z.services == s.services - {s.names[name]} && z.names == s.names - {name} &&
              z.tickers == s.tickers - {s.names[name]} && z.free == s.free + {s.names[name]} && z.next == s.next
            else
              z == s
  {
    StopByNameSays(s, name);
    hide Reaches, O.Owned, StoppedByName, Orderly;
    StopByNameIsReached(s, name);
    StopByNameIsMutual(s, name);
    StopByNameIsOrderly(s, name);
  }

  lemma StopByNameIsOrderly(s: State, name: Name)
    requires Orderly(s) && Reaches(s, StoppedByName(s, name)) && StoppedByName(s, name).pcs == map[]
    requires Mutual(StoppedByName(s, name).services, StoppedByName(s, name).names)
    ensures Orderly(StoppedByName(s, name)) && StoppedByName(s, name).leaked == s.leaked
  {
    hide Reaches, O.Owned, StoppedByName;
    SettledReach(s, StoppedByName(s, name));
  }

  lemma StopByNameSays(s: State, name: Name)
    requires Orderly(s)
    ensures var z := StoppedByName(s, name);
            if name in s.names then
              z.services == s.services - {s.names[name]} && z.names == s.names - {name} &&
              z.tickers == s.tickers - {s.names[name]} && z.free == s.free + {s.names[name]} && z.next == s.next
            else
              z == s
  {
    OrderlySays(s);
  }

  lemma StopByNameIsMutual(s: State, name: Name)
    requires Orderly(s)
    ensures Mutual(StoppedByName(s, name).services, StoppedByName(s, name).names) && StoppedByName(s, name).pcs == map[]
  {
    OrderlySays(s);
  }

  /** Also when the name leads to no service or to that of another name. */
  lemma StopByNameIsReached(s: State, name: Name)
    requires s.pcs == map[]
    ensures Reaches(s, StoppedByName(s, name)) && StoppedByName(s, name).pcs == map[]
  {
    hide Reaches;
    Stay(s);
    if name in s.names {
      var sid := s.names[name];
      var s1 := s.(names := s.names - {name});
      ReachExtends(s, s, TakeName(0, name));
      if sid >= 0 {
        ReachExtends(s, Go(s1, 0, StopNamed(sid, name)), WithdrawNamed(0));
        if sid in s.services {
          var s2 := s1.(services := s.services - {sid});
          assert Next(Go(s1, 0, StopNamed(sid, name)), WithdrawNamed(0)) == Go(s2, 0, StopUnnamed(sid));
          StopFinishes(s, s2, 0, sid);
        } else {
          assert Next(Go(s1, 0, StopNamed(sid, name)), WithdrawNamed(0)) == s1;
        }
      }
    }
  }

  // ---------------------------------------------------------------------------------------------
  // Registration of the configured core services

  /** What the factory and the service code answer for one configured core service. */
  datatype Core = Core(created: bool, initialized: bool, name: Name)

  /** A service that fails to initialize returns its id; one whose name is taken keeps it. */
  function CoreAdded(s: State, sid: int, core: Core): State {
    var a := Allocated(s, sid);
    if !core.created then s
    else if !core.initialized then a.(free := a.free + {sid})
    else if core.name in s.names then a.(leaked := a.leaked + {sid})
    else a.(services := a.services[sid := core.name], names := a.names[core.name := sid])
  }

  lemma AllocatedSays(s: State, sid: int)
    requires Settled(s) && Allocatable(s, sid)
    ensures var a := Allocated(s, sid);
            a.free <= Upto(a.next) && a.next >= 0 && Outstanding(a) == Outstanding(s) + {sid} &&
            sid !in Outstanding(s) &&
            Outstanding(a.(free := a.free + {sid})) == Outstanding(s) && a.free + {sid} <= Upto(a.next)
  {
    OrderlySays(s);
    UptoStep(s.next);
    assert s.free != {} ==> sid in Upto(s.next);
    hide Upto, Settled;
  }

  lemma MutualInsert(services: map<int, Name>, names: map<Name, int>, sid: int, name: Name)
    requires Mutual(services, names) && sid !in services && name !in names
    ensures Mutual(services[sid := name], names[name := sid])
  {
  }

  lemma NamesAreServed(services: map<int, Name>, names: map<Name, int>)
    requires Mutual(services, names)
    ensures names.Keys <= services.Values
  {
    forall n | n in names
      ensures n in services.Values
    {
      assert services[names[n]] == n;
    }
  }

  /** Names and ids are equally many. */
  lemma {:induction false} MutualSize(services: map<int, Name>, names: map<Name, int>)
    requires Mutual(services, names)
    ensures |services| == |names|
    decreases |services|
  {
    NamesAreServed(services, names);
    if services.Keys == {} {
      assert services == map[] && services.Values == {};
      assert names == map[];
    } else {
      var sid := SomeElement(services.Keys);
      var name := services[sid];
      MutualSize(services - {sid}, names - {name});
      assert services == (services - {sid})[sid := name];
      assert names == (names - {name})[name := sid];
    }
  }

  lemma CoreKeeps(s: State, sid: int, core: Core)
    requires Orderly(s) && Allocatable(s, sid)
    ensures Orderly(CoreAdded(s, sid, core))
  {
    CoreCensus(s, sid, core);
    AllocatedSays(s, sid);
    OrderlySays(s);
    hide Upto, O.Owned, Allocatable;
    if core.name !in s.names && sid !in s.services {
      MutualInsert(s.services, s.names, sid, core.name);
    }
    hide Mutual;
    SettledWhen(CoreAdded(s, sid, core));
  }

  /** One core service adds its name and one outstanding id, which the registry or the leak owns. */
  lemma CoreCensus(s: State, sid: int, core: Core)
    requires Orderly(s) && Allocatable(s, sid)
    ensures var z := CoreAdded(s, sid, core);
            var one := core.created && core.initialized;
            z.names.Keys == s.names.Keys + (if one then {core.name} else {}) &&
            Outstanding(z) == Outstanding(s) + (if one then {sid} else {}) == z.services.Keys + z.leaked &&
            sid !in Outstanding(s) && z.tickers == s.tickers &&
            if one && core.name !in s.names then
              z.services == s.services[sid := core.name] && z.names == s.names[core.name := sid] && z.leaked == s.leaked
            else
              z.services == s.services && z.names == s.names && z.leaked == s.leaked + if one then {sid} else {}
  {
    CoreSays(s, sid, core);
    CoreTakesId(s, sid, core);
    OrderlySays(s);
    hide CoreAdded, Orderly, Allocatable, Outstanding;
  }

  lemma CoreTakesId(s: State, sid: int, core: Core)
    requires Orderly(s) && Allocatable(s, sid)
    ensures Outstanding(CoreAdded(s, sid, core)) ==
            Outstanding(s) + (if core.created && core.initialized then {sid} else {}) && sid !in Outstanding(s)
  {
    AllocatedSays(s, sid);
    hide Upto, Settled, Allocatable, Mutual;
  }

  lemma CoreSays(s: State, sid: int, core: Core)
    ensures var z := CoreAdded(s, sid, core);
            var one := core.created && core.initialized;
            z.tickers == s.tickers &&
            if one && core.name !in s.names then
              z.services == s.services[sid := core.name] && z.names == s.names[core.name := sid] && z.leaked == s.leaked
            else
              z.services == s.services && z.names == s.names && z.leaked == s.leaked + if one then {sid} else {}
  {
  }

  /** Clearing the maps leaves the ids of the services outstanding with no one to return them. */
  lemma StopKeeps(s: State)
    requires Orderly(s)
    ensures Orderly(s.(services := map[], names := map[], leaked := s.leaked + s.services.Keys))
  {
    OrderlySays(s);
    hide Upto, O.Owned;
    SettledWhen(s.(services := map[], names := map[], leaked := s.leaked + s.services.Keys));
  }

  // ---------------------------------------------------------------------------------------------
  // What one call undoes

  /**
   A boot registers exactly one service under a new id, and its ticker if it asked for one, or leaves
   maps, tickers and outstanding ids alone.
   */
  lemma BootIsAllOrNothing(s: State, sid: int, o: Outcome)
    requires Orderly(s) && Allocatable(s, sid)
    ensures var b := Booted(s, sid, o);
            if o.created && o.initialized && o.name != "" && o.name != "UNKNOWN" && o.name !in s.names && o.started then
              sid !in s.services && b.services == s.services[sid := o.name] && b.names == s.names[o.name := sid] &&
              b.tickers == s.tickers + (if o.ticks then {sid} else {}) &&
              Outstanding(b) == Outstanding(s) + {sid} && sid !in Outstanding(s)
            else
              b.services == s.services && b.names == s.names && b.tickers == s.tickers &&
              Outstanding(b) == Outstanding(s)
  {
    OrderlySays(s);
    UptoStep(s.next);
    if s.free != {} {
      assert sid in Upto(s.next);
      assert s.free - {sid} + {sid} == s.free;
    }
    hide Upto;
  }

  /** Shutting the booted service down restores maps and outstanding ids, and tickers up to its own id. */
  lemma StopUndoesBoot(s: State, sid: int, o: Outcome)
    requires Orderly(s) && Allocatable(s, sid) && Accepted(s, o)
    ensures var z := StoppedById(Booted(s, sid, o), sid);
            z == StoppedByName(Booted(s, sid, o), o.name) &&
            z.services == s.services && z.names == s.names && z.tickers == s.tickers - {sid} &&
            Outstanding(z) == Outstanding(s)
  {
    BootIsAllOrNothing(s, sid, o);
    BootIsRun(s, sid, o);
    var b := Booted(s, sid, o);
    StopByNameIsStopById(b, o.name);
    hide Upto, Settled, Accepted, Reaches, Allocatable;
    var z := StoppedById(b, sid);
    assert z.services == s.services && z.names == s.names;
    assert Outstanding(z) == Outstanding(b) - {sid};
  }

  // ---------------------------------------------------------------------------------------------
  // Sequential runs

  datatype Call =
    | Boot(sid: int, o: Outcome)
    | StopById(id: int)
    | StopByName(name: Name)
    | AddTicker(id: int)
    | DropTicker(id: int)
    | Pass

  /** An id booted is one the allocator may hand out; a ticker added by a caller names a service or is refused. */
  predicate Allowed(s: State, c: Call) {
    match c
    case Boot(sid, _) => Allocatable(s, sid)
    case AddTicker(id) => id < 0 || id in s.services
    case _ => true
  }

  function Called(s: State, c: Call): State {
    match c
    case Boot(sid, o) => Booted(s, sid, o)
    case StopById(id) => StoppedById(s, id)
    case StopByName(name) => StoppedByName(s, name)
    case AddTicker(id) => Next(s, InsertTicker(id))
    case DropTicker(id) => Next(s, RemoveTicker(id))
    case Pass => Next(s, UpdatePass)
  }

  predicate IsHistory(s: State, calls: seq<Call>)
    decreases |calls|
  {
    calls == [] || (Allowed(s, calls[0]) && IsHistory(Called(s, calls[0]), calls[1..]))
  }

  function Final(s: State, calls: seq<Call>): State
    decreases |calls|
  {
    if calls == [] then s else Final(Called(s, calls[0]), calls[1..])
  }

  lemma CallKeeps(s: State, c: Call)
    requires Orderly(s) && s.tickers <= s.services.Keys && Allowed(s, c)
    ensures Orderly(Called(s, c)) && Called(s, c).tickers <= Called(s, c).services.Keys &&
            Called(s, c).leaked == s.leaked
  {
    hide O.Owned, Reaches, Mutual;
    match c
    case Boot(sid, o) => BootIsRun(s, sid, o);
    case StopById(id) => StopByIdIsRun(s, id);
    case StopByName(name) => StopByNameIsRun(s, name); StopByNameIsStopById(s, name);
    case AddTicker(id) => Stay(s); ReachExtends(s, s, InsertTicker(id)); SettledReach(s, Called(s, c));
    case DropTicker(id) => Stay(s); ReachExtends(s, s, RemoveTicker(id)); SettledReach(s, Called(s, c));
    case Pass => Stay(s); ReachExtends(s, s, UpdatePass); SettledReach(s, Called(s, c));
  }

  /**
   Over any sequential history names and ids stay mutually inverse, every ticker belongs to a
   registered service, and the outstanding ids are those of the services and of the ids registration
   had leaked.
   */
  lemma {:induction false} HistoryIsSound(s: State, calls: seq<Call>)
    requires Orderly(s) && s.tickers <= s.services.Keys && IsHistory(s, calls)
    ensures var z := Final(s, calls);
            Mutual(z.services, z.names) && z.tickers <= z.services.Keys &&
            Outstanding(z) == z.services.Keys + s.leaked && z.services.Keys !! s.leaked
    decreases |calls|
  {
    if calls == [] {
      OrderlySays(s);
    } else {
      CallKeeps(s, calls[0]);
      hide Orderly, Called, Allowed, Mutual, Outstanding;
      HistoryIsSound(Called(s, calls[0]), calls[1..]);
    }
  }
}
