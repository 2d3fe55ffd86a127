/**
 The service registry as a class with its three indexes and its id allocator, used by one thread.

 Each method is proved against the function of ServiceRuns that is a run of the locked sections.
 An agent is represented by the name of its service; what service code decides is a parameter.
 */
module ServiceRegistry {
  import opened Wrappers
  import opened Collections
  import opened Identifiers
  import opened ServiceSteps
  import opened ServiceTheorems
  import opened ServiceRuns

  datatype Phase = Created | Initialized | Running | Stopped

  datatype Refusal = WrongPhase

  class ServiceModule {
    const allocator: IdentAllocator
    var phase: Phase
    var services: map<int, Name>
    var names: map<Name, int>
    var tickers: set<int>
    /** Ids that are outstanding and belong to no service. */
    ghost var leaked: set<int>

    ghost function View(): State
      reads this, allocator
    {
      State(services, names, tickers, allocator.free, allocator.next, leaked, map[])
    }

    /** Also in the middle of registration. */
    ghost predicate Sound()
      reads this, allocator
    {
      allocator.View().Ok() && Orderly(View())
    }

    ghost predicate Valid()
      reads this, allocator
    {
      Sound() && (phase == Created ==> View() == State(map[], map[], {}, {}, 0, {}, map[]))
    }

    constructor ()
      ensures Valid() && fresh(allocator) && phase == Created && View() == State(map[], map[], {}, {}, 0, {}, map[])
    {
      phase := Created;
      services, names, tickers, leaked := map[], map[], {}, {};
      allocator := new IdentAllocator();
      new;
      assert Upto(0) == {};
      assert allocator.View().Outstanding() == {};
      SettledWhen(View());
    }

    /** A new id, which no service has; outstanding ids stay in order around it. */
    method TakeId() returns (sid: int)
      requires Sound()
      modifies allocator
      ensures Allocatable(old(View()), sid) && sid >= 1 && sid !in services && View() == Allocated(old(View()), sid)
      ensures sid !in old(allocator.View().Outstanding())
      ensures allocator.View().Ok() && sid in allocator.View().Outstanding()
      ensures allocator.View().Outstanding() == old(allocator.View().Outstanding()) + {sid}
      ensures allocator.usage == old(allocator.usage) + 1
    {
      hide O.Owned, Mutual, Ids.Ok, Upto;
      ghost var before := allocator.View();
      OrderlySays(View());
      sid := allocator.Allocate();
      AllocationIsNew(before, sid, allocator.View());
    }

    method GiveBack(sid: int)
      requires allocator.View().Ok() && sid in allocator.View().Outstanding()
      modifies allocator
      ensures allocator.View().Ok() && allocator.usage == old(allocator.usage) - 1
      ensures allocator.next == old(allocator.next) && allocator.free == old(allocator.free) + {sid}
      ensures allocator.View().Outstanding() == old(allocator.View().Outstanding()) - {sid}
    {
      RecycleKeepsIff(allocator.View(), sid);
      allocator.Recycle(sid);
    }

    method BootService(o: Outcome)
      requires Valid()
      modifies this, allocator
      ensures Valid() && phase == old(phase) && leaked == old(leaked)
      ensures phase != Running || !o.created ==> View() == old(View())
      ensures phase == Running && o.created ==>
                exists sid :: Allocatable(old(View()), sid) && View() == Booted(old(View()), sid, o)
      ensures var outstanding := old(allocator.View().Outstanding());
              if phase == Running && o.created && o.initialized && o.name != "" && o.name != "UNKNOWN" &&
                 o.name !in old(names) && o.started
              then
                o.name in names &&
                var sid := names[o.name];
                sid >= 1 && sid !in outstanding && allocator.View().Outstanding() == outstanding + {sid} &&
                sid !in old(services) && services == old(services)[sid := o.name] &&
                names == old(names)[o.name := sid] && tickers == old(tickers) + if o.ticks then {sid} else {}
              else
                services == old(services) && names == old(names) && tickers == old(tickers) &&
                allocator.View().Outstanding() == outstanding
    {
      hide Orderly, Allocatable, Ids.Ok, Ids.Outstanding, Upto, Reaches;
      if phase != Running {
        return;
      }
      if !o.created {
        return;
      }
      ghost var start := View();
      var sid := TakeId();
      BootIsRun(start, sid, o);
      // "Service ID Repeated" is never taken.
      if sid in services {
        assert false;
      }
      if !o.initialized {
        GiveBack(sid);
        assert View() == Booted(start, sid, o);
        return;
      }
      if o.name == "" || o.name == "UNKNOWN" {
        GiveBack(sid);
        assert View() == Booted(start, sid, o);
        return;
      }
      if o.name in names || !o.started {
        GiveBack(sid);
        assert View() == Booted(start, sid, o);
        return;
      }
      if o.ticks {
        InsertTicker(sid);
      }
      services := services[sid := o.name];
      names := names[o.name := sid];
      assert View() == Booted(start, sid, o);
    }

    method ShutdownById(sid: int)
      requires Valid()
      modifies this, allocator
      ensures Valid() && phase == old(phase) && leaked == old(leaked)
      ensures View() == if phase == Running then StoppedById(old(View()), sid) else old(View())
      ensures if phase == Running && sid in old(services) then
                services == old(services) - {sid} && names == old(names) - {old(services)[sid]} &&
                tickers == old(tickers) - {sid} &&
                allocator.View().Outstanding() == old(allocator.View().Outstanding()) - {sid}
              else
                View() == old(View())
    {
      if phase != Running {
        return;
      }
      if sid !in services {
        return;
      }
      hide Orderly, Reaches, Ids.Ok, Ids.Outstanding, Upto;
      OwnsItsIds(sid);
      StopByIdIsRun(View(), sid);
      var name := services[sid];
      services := services - {sid};
      names := names - {name};
      tickers := tickers - {sid};
      GiveBack(sid);
    }

    method ShutdownByName(name: Name)
      requires Valid()
      modifies this, allocator
      ensures Valid() && phase == old(phase) && leaked == old(leaked)
      ensures View() == if phase == Running then StoppedByName(old(View()), name) else old(View())
      ensures if phase == Running && name in old(names) then
                var sid := old(names)[name];
                services == old(services) - {sid} && names == old(names) - {name} && tickers == old(tickers) - {sid} &&
                allocator.View().Outstanding() == old(allocator.View().Outstanding()) - {sid}
              else
                View() == old(View())
    {
      if phase != Running {
        return;
      }
      if name !in names {
        return;
      }
      hide Orderly, Reaches, Ids.Ok, Ids.Outstanding, Upto;
      StopByNameIsRun(View(), name);
      var sid := names[name];
      OwnsItsIds(sid);
      names := names - {name};
      if sid < 0 {
        return;
      }
      if sid !in services {
        return;
      }
      services := services - {sid};
      tickers := tickers - {sid};
      GiveBack(sid);
    }

    lemma OwnsItsIds(sid: int)
      requires Valid()
      ensures sid in services ==> sid in allocator.View().Outstanding() && sid >= 1
    {
      OrderlySays(View());
    }

    method InsertTicker(sid: int)
      modifies this`tickers
      ensures tickers == if phase == Running && sid >= 0 then old(tickers) + {sid} else old(tickers)
    {
      if phase != Running {
        return;
      }
      if sid < 0 {
        return;
      }
      tickers := tickers + {sid};
    }

    method RemoveTicker(sid: int)
      modifies this`tickers
      ensures tickers == if phase == Running && sid >= 0 then old(tickers) - {sid} else old(tickers)
    {
      if phase != Running {
        return;
      }
      if sid < 0 {
        return;
      }
      tickers := tickers - {sid};
    }

    /** One pass of the update loop: the registered ids are ticked, the others leave the set. */
    method UpdatePass() returns (ticked: set<int>)
      modifies this`tickers
      ensures ticked == old(tickers) * services.Keys && tickers == ticked
    {
      var ahead := tickers;
      ticked := {};
      while ahead != {}
        invariant ahead <= tickers && ticked == (tickers - ahead) && ticked <= services.Keys
        invariant tickers <= old(tickers) && old(tickers) * services.Keys <= tickers
        decreases |ahead|
      {
        var sid := Pick(ahead);
        ahead := ahead - {sid};
        if sid in services {
          ticked := ticked + {sid};
        } else {
          tickers := tickers - {sid};
        }
      }
    }

    function FindById(sid: int): Option<Name>
      reads this
    {
      if phase != Running || sid !in services then None else Some(services[sid])
    }

    /** A name finds the agent registered under it and nothing else. */
    method FindByName(name: Name) returns (r: Option<Name>)
      requires Valid()
      ensures r == if phase == Running && name in names then Some(name) else None
    {
      if phase != Running {
        return None;
      }
      if name !in names {
        return None;
      }
      var sid := names[name];
      OwnsItsIds(sid);
      if sid < 0 {
        return None;
      }
      r := FindById(sid);
    }

    /** The index turned around is the service map. */
    method GetAllServiceMap() returns (result: map<int, Name>)
      requires Valid()
      ensures result == if phase == Running then services else map[]
    {
      if phase != Running {
        return map[];
      }
      result := map[];
      var ahead := names.Keys;
      while ahead != {}
        invariant ahead <= names.Keys
        invariant result.Keys <= services.Keys && forall sid | sid in result :: result[sid] == services[sid]
        invariant forall n | n in names && n !in ahead :: names[n] in result
        decreases |ahead|
      {
        var name := Pick(ahead);
        ahead := ahead - {name};
        var sid := names[name];
        if sid !in result {
          result := result[sid := name];
        }
      }
      forall sid | sid in services
        ensures sid in result
      {
        assert services[sid] in names;
      }
      assert forall sid :: sid in result <==> sid in services;
      assert forall sid | sid in result :: result[sid] == services[sid];
    }

    /** Starts the core services; `asking` are those that ask for updates while they start. */
    method Start(asking: set<int>) returns (r: Result<(), Refusal>)
      requires Valid()
      modifies this`phase, this`tickers
      ensures r.Ok? <==> old(phase) == Initialized
      ensures phase == if r.Ok? then Running else old(phase)
      ensures tickers == old(tickers)
    {
      if phase != Initialized {
        return Err(WrongPhase);
      }
      var ahead := services.Keys;
      while ahead != {}
        invariant tickers == old(tickers) && phase == Initialized
        decreases |ahead|
      {
        var sid := Pick(ahead);
        ahead := ahead - {sid};
        if sid in asking {
          InsertTicker(sid);
        }
      }
      phase := Running;
      r := Ok(());
    }

    /** The maps are cleared; the ids of the services are never returned and tickers stay. */
    method Stop()
      requires Valid()
      modifies this
      ensures Valid() && phase == Stopped
      ensures old(phase) == Stopped ==> View() == old(View())
      ensures old(phase) != Stopped ==>
                View() == old(View()).(services := map[], names := map[], leaked := old(leaked) + old(services.Keys))
    {
      if phase == Stopped {
        return;
      }
      hide Orderly, Ids.Ok, Ids.Outstanding, Upto;
      ghost var end := View().(services := map[], names := map[], leaked := leaked + services.Keys);
      StopKeeps(View());
      phase := Stopped;
      leaked := leaked + services.Keys;
      services := map[];
      names := map[];
      assert View() == end;
    }

    /**
     Creates the core services.  The first of each name is registered, under one more than the number
     of services initialized before it; each later one of the name leaks its id.
     */
    method Initial(cores: seq<Core>) returns (r: Result<(), Refusal>)
      requires Valid()
      modifies this, allocator
      ensures Valid()
      ensures r.Ok? <==> old(phase) == Created
      ensures phase == if r.Ok? then Initialized else old(phase)
      ensures r.Err? ==> View() == old(View())
      ensures r.Ok? ==> tickers == {} && names.Keys == CoreNames(cores) && FirstsAreNamed(cores, names)
      ensures r.Ok? ==> |names| + |leaked| == allocator.usage == CoreCount(cores)
    {
      hide Orderly, Ids.Ok, Ids.Outstanding, CoreAdded, Allocatable, Registers, CoreCount;
      if phase != Created {
        return Err(WrongPhase);
      }
      UsageAtStart();
      NoCoreYet(cores[..0], View());
      for i := 0 to |cores|
        invariant Sound() && phase == Created && tickers == {}
        invariant allocator.usage == CoreCount(cores[..i]) && Registers(cores[..i], View())
      {
        CountStep(cores, i);
        ghost var before := View();
        if cores[i].created {
          AddCore(cores[i]);
          ghost var sid :| Allocatable(before, sid) && View() == CoreAdded(before, sid, cores[i]);
          CoreFollows(cores, i, before, sid);
        } else {
          CoreSkipped(cores, i, before);
        }
      }
      assert cores[..|cores|] == cores;
      RegistersSays(cores, View());
      Census();
      phase := Initialized;
      r := Ok(());
    }

    lemma UsageAtStart()
      requires Valid() && phase == Created
      ensures allocator.usage == 0
    {
      OrderlySays(View());
      assert allocator.View().Outstanding() == {};
    }

    /** Each outstanding id is a service's, and so a name's, or leaked. */
    lemma Census()
      requires Sound()
      ensures |names| + |leaked| == allocator.usage
    {
      OrderlySays(View());
      MutualSize(services, names);
      assert allocator.View().Outstanding() == services.Keys + leaked;
    }

    /** One round of the loop over the configured core services. */
    method AddCore(core: Core)
      requires Sound() && core.created
      modifies this, allocator
      ensures Sound() && phase == old(phase) && tickers == old(tickers)
      ensures allocator.usage == old(allocator.usage) + if core.initialized then 1 else 0
      ensures exists sid :: Allocatable(old(View()), sid) && View() == CoreAdded(old(View()), sid, core)
      ensures if core.initialized && core.name !in old(names) then
                core.name in names && names[core.name] !in old(services) && leaked == old(leaked) &&
                services == old(services)[names[core.name] := core.name] &&
                names == old(names)[core.name := names[core.name]]
              else
                services == old(services) && names == old(names)
    {
      hide Orderly, Allocatable, Upto, Outstanding, Ids.Ok, Ids.Outstanding, Settled, Mutual, Reaches;
      ghost var start := View();
      var sid := TakeId();
      CoreKeeps(start, sid, core);
      // "Allocate Same Service ID" is never thrown.
      if sid in services {
        assert false;
      }
      if !core.initialized {
        GiveBack(sid);
        assert View() == CoreAdded(start, sid, core);
        return;
      }
      if core.name in names {
        leaked := leaked + {sid};
        assert View() == CoreAdded(start, sid, core);
        return;
      }
      services := services[sid := core.name];
      names := names[core.name := sid];
      assert View() == CoreAdded(start, sid, core);
    }
  }

  function CoreNames(cores: seq<Core>): set<Name> {
    set c | c in cores && c.created && c.initialized :: c.name
  }

  function CoreCount(cores: seq<Core>): nat {
    if cores == [] then 0
    else CoreCount(cores[..|cores| - 1]) + if cores[|cores| - 1].created && cores[|cores| - 1].initialized then 1 else 0
  }

  predicate Counts(core: Core) {
    core.created && core.initialized
  }

  /** The first initialized service of each name has the id after those initialized before it. */
  ghost predicate FirstsAreNamed(cores: seq<Core>, names: map<Name, int>) {
    forall j | 0 <= j < |cores| && IsFirst(cores, j) ::
      cores[j].name in names && names[cores[j].name] == CoreCount(cores[..j]) + 1
  }

  predicate IsFirst(cores: seq<Core>, j: nat)
    requires j < |cores|
  {
    Counts(cores[j]) && forall m | 0 <= m < j :: Counts(cores[m]) ==> cores[m].name != cores[j].name
  }

  lemma NoFirsts(cores: seq<Core>, names: map<Name, int>)
    requires cores == []
    ensures FirstsAreNamed(cores, names)
  {
  }

  /** While the core services are created, the outstanding ids are 1..k. */
  ghost predicate Packed(s: State, k: nat) {
    Outstanding(s) == Upto(k) && k <= s.next <= k + 1
  }

  lemma StartIsPacked(s: State)
    requires s == State(map[], map[], {}, {}, 0, {}, map[])
    ensures Packed(s, 0)
  {
  }

  lemma PackedStep(s: State, sid: int, core: Core, k: nat)
    requires Orderly(s) && Allocatable(s, sid) && Packed(s, k)
    ensures sid == k + 1 && Packed(CoreAdded(s, sid, core), if Counts(core) then k + 1 else k)
  {
    OrderlySays(s);
    CoreCensus(s, sid, core);
    UptoStep(k);
    hide Orderly;
    if s.free != {} {
      assert sid in Upto(s.next) && sid !in Upto(k);
    } else {
      assert Upto(s.next) == Upto(k);
      assert s.next > k ==> s.next in Upto(s.next) && s.next !in Upto(k);
    }
  }

  lemma NamesStep(s: State, sid: int, core: Core)
    ensures CoreAdded(s, sid, core).names ==
            if Counts(core) && core.name !in s.names then s.names[core.name := sid] else s.names
  {
  }

  lemma FirstsFollow(cores: seq<Core>, i: nat, names: map<Name, int>, names': map<Name, int>)
    requires i < |cores| && FirstsAreNamed(cores[..i], names) && names.Keys == CoreNames(cores[..i])
    requires names' == if Counts(cores[i]) && cores[i].name !in names
               then names[cores[i].name := CoreCount(cores[..i]) + 1] else names
    ensures FirstsAreNamed(cores[..i + 1], names')
  {
    hide IsFirst, CoreNames, CoreCount;
    var now, later := cores[..i], cores[..i + 1];
    forall j | 0 <= j < i + 1 && IsFirst(later, j)
      ensures later[j].name in names' && names'[later[j].name] == CoreCount(later[..j]) + 1
    {
      PrefixOfPrefix(cores, i + 1, j);
      if j < i {
        FirstStays(cores, i, j);
        PrefixOfPrefix(cores, i, j);
        assert now[j] == cores[j];
      } else {
        FirstIsNew(cores, i);
      }
    }
  }

  lemma PrefixOfPrefix(cores: seq<Core>, i: nat, j: nat)
    requires j <= i <= |cores|
    ensures cores[..i][..j] == cores[..j]
  {
  }

  lemma FirstStays(cores: seq<Core>, i: nat, j: nat)
    requires j < i < |cores| && IsFirst(cores[..i + 1], j)
    ensures IsFirst(cores[..i], j)
  {
    assert forall m | 0 <= m < i :: cores[..i][m] == cores[..i + 1][m];
  }

  lemma FirstIsNew(cores: seq<Core>, i: nat)
    requires i < |cores| && IsFirst(cores[..i + 1], i)
    ensures Counts(cores[i]) && cores[i].name !in CoreNames(cores[..i])
  {
    assert cores[..i + 1][i] == cores[i];
    forall c | c in cores[..i] && Counts(c)
      ensures c.name != cores[i].name
    {
      var m :| 0 <= m < i && cores[..i][m] == c;
      assert cores[..i + 1][m] == c;
    }
  }

  /** What registration has reached after some of the configured core services. */
  ghost predicate Registers(cores: seq<Core>, s: State) {
    s.names.Keys == CoreNames(cores) && FirstsAreNamed(cores, s.names) && Packed(s, CoreCount(cores))
  }

  lemma RegistersSays(cores: seq<Core>, s: State)
    requires Registers(cores, s)
    ensures s.names.Keys == CoreNames(cores) && FirstsAreNamed(cores, s.names)
  {
  }

  lemma NoCoreYet(cores: seq<Core>, s: State)
    requires cores == [] && s == State(map[], map[], {}, {}, 0, {}, map[])
    ensures Registers(cores, s) && CoreCount(cores) == 0
  {
    StartIsPacked(s);
    NoFirsts(cores, s.names);
  }

  lemma CountStep(cores: seq<Core>, i: nat)
    requires i < |cores|
    ensures CoreCount(cores[..i + 1]) == CoreCount(cores[..i]) + if Counts(cores[i]) then 1 else 0
  {
    CoreStep(cores, i);
  }

  lemma CoreFollows(cores: seq<Core>, i: nat, before: State, sid: int)
    requires i < |cores| && Orderly(before) && Allocatable(before, sid) && cores[i].created
    requires Registers(cores[..i], before)
    ensures Registers(cores[..i + 1], CoreAdded(before, sid, cores[i]))
  {
    hide Orderly, Allocatable, CoreAdded, Packed, FirstsAreNamed, CoreNames, CoreCount;
    CoreStep(cores, i);
    CoreCensus(before, sid, cores[i]);
    PackedStep(before, sid, cores[i], CoreCount(cores[..i]));
    NamesStep(before, sid, cores[i]);
    FirstsFollow(cores, i, before.names, CoreAdded(before, sid, cores[i]).names);
  }

  lemma CoreSkipped(cores: seq<Core>, i: nat, s: State)
    requires i < |cores| && !cores[i].created && Registers(cores[..i], s)
    ensures Registers(cores[..i + 1], s)
  {
    hide Packed, FirstsAreNamed, CoreNames, CoreCount;
    CoreStep(cores, i);
    FirstsFollow(cores, i, s.names, s.names);
  }

  lemma CoreStep(cores: seq<Core>, i: nat)
    requires i < |cores|
    ensures var counts := cores[i].created && cores[i].initialized;
            CoreNames(cores[..i + 1]) == CoreNames(cores[..i]) + (if counts then {cores[i].name} else {}) &&
            CoreCount(cores[..i + 1]) == CoreCount(cores[..i]) + if counts then 1 else 0
  {
    assert cores[..i + 1] == cores[..i] + [cores[i]];
    assert cores[..i + 1][..i] == cores[..i];
  }
}
