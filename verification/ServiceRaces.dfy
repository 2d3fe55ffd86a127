/**
 Runs in which the service map, the name index and the tickers do come apart: the conditions of
 module ServiceConditions can fail.  Each starts from an orderly registry and ends between calls.
 */
module ServiceRaces {
  import opened Identifiers
  import opened ServiceSteps
  import opened ServiceTheorems
  import opened ServiceRuns
  import opened ServiceConditions

  function Registry(
    pcs: map<Thread, Pc>, services: map<int, Name>, names: map<Name, int>, tickers: set<int>, free: set<int>): State {
    State(services, names, tickers, free, 1, {}, pcs)
  }

  /** A registry with service "a" under id 1. */
  function OneService(): State {
    Registry(map[], map[1 := "a"], map["a" := 1], {}, {})
  }

  /** A registry that has handed id 1 out and has it back. */
  function NoService(): State {
    Registry(map[], map[], map[], {}, {1})
  }

  lemma StartsAreOrderly()
    ensures Orderly(OneService()) && Orderly(NoService())
  {
    UptoStep(0);
    assert Upto(1) == {1};
    SettledWhen(OneService());
    SettledWhen(NoService());
  }

  lemma Then(s0: State, s: State, a: Action, s': State)
    requires Reaches(s0, s) && Enabled(s, a) && Next(s, a) == s'
    ensures Reaches(s0, s')
  {
    hide Enabled, Next, Reaches;
    ReachExtends(s0, s, a);
  }

  /** Both shutdowns of "a" withdraw something: the one by name has the name, the one by id the service. */
  lemma OvertakenStop()
    ensures Reaches(OneService(), Registry(map[0 := StopNamed(1, "a")], map[], map[], {}, {1}))
  {
    hide Reaches;
    NameIsTaken();
    var s := Registry(map[0 := StopNamed(1, "a")], map[], map[], {}, {});
    ServiceIsWithdrawn(Registry(map[0 := StopNamed(1, "a")], map[1 := "a"], map[], {}, {}), s);
    StopFinishes(OneService(), s, 1, 1);
    assert s.tickers - {1} == {} && s.free + {1} == {1};
  }

  lemma NameIsTaken()
    ensures Reaches(OneService(), Registry(map[0 := StopNamed(1, "a")], map[1 := "a"], map[], {}, {}))
  {
    hide Reaches;
    assert OneService().names - {"a"} == map[];
    Stay(OneService());
    Then(OneService(), OneService(), Action.TakeName(0, "a"),
         Registry(map[0 := StopNamed(1, "a")], map[1 := "a"], map[], {}, {}));
  }

  lemma ServiceIsWithdrawn(s: State, z: State)
    requires s == Registry(map[0 := StopNamed(1, "a")], map[1 := "a"], map[], {}, {})
    requires z == Registry(map[0 := StopNamed(1, "a")], map[], map[], {}, {}) && Reaches(OneService(), s)
    ensures Reaches(OneService(), Go(z, 1, StopUnnamed(1)))
  {
    hide Reaches;
    assert s.services - {1} == map[];
    Then(OneService(), s, Action.WithdrawById(1, 1), Go(z, 1, StopWithdrawn(1, "a")));
    Then(OneService(), Go(z, 1, StopWithdrawn(1, "a")), EraseName(1), Go(z, 1, StopUnnamed(1)));
  }

  /** Thread 1 boots "b", which gets the returned id, while thread 0 is still about to look for it. */
  lemma ReusedId()
    ensures Reaches(OneService(), Registry(map[0 := StopNamed(1, "a")], map[1 := "b"], map["b" := 1], {}, {}))
  {
    OvertakenStop();
    var stop := map[0 := StopNamed(1, "a")];
    var freed := Registry(stop, map[], map[], {}, {1});
    var a := freed.(free := {});
    assert {1} - {1} == {};
    Then(OneService(), freed, Action.TakeFree(1, 1), Go(a, 1, BootAllocated(1)));
    BootContinues(OneService(), a, 1, 1, Outcome(true, true, "b", true, false));
  }

  /**
   A shutdown of "a" that is overtaken takes down "b", which nobody asked to stop; the name "b" then
   blocks the boots under it, until it is shut down by name.
   */
  lemma StaleStopTakesAnother()
    ensures var end := Registry(map[], map[], map["b" := 1], {}, {1});
            Reaches(OneService(), end) && Settled(end) && Blocked(end, "b")
  {
    ReusedId();
    StartsAreOrderly();
    var end := Registry(map[], map[], map["b" := 1], {}, {1});
    var named := Registry(map[0 := StopNamed(1, "a")], map[1 := "b"], map["b" := 1], {}, {});
    assert named.services - {1} == map[];
    OverrunStop(named, end);
    hide Reaches;
    SettledReach(OneService(), end);
  }

  /** A registry in which the name "b" leads to service "c". */
  function Mixed(): State {
    Registry(map[], map[1 := "c"], map["b" := 1, "c" := 1], {}, {})
  }

  /**
   From there a boot of "c" gets id 1, to which the name "b" still leads: a shutdown of "b" that
   nobody interrupts takes "c" down.
   */
  lemma NameLeadsToAnother()
    ensures Reaches(OneService(), Mixed()) && Settled(Mixed()) && "c" in Mixed().services.Values
    ensures StoppedByName(Mixed(), "b") == Registry(map[], map[], map["c" := 1], {}, {1})
  {
    MixedIsReached();
    StartsAreOrderly();
    assert Mixed().services[1] == "c";
    assert Mixed().services - {1} == map[] && Mixed().names - {"b"} == map["c" := 1];
    assert Mixed().tickers - {1} == {} && Mixed().free + {1} == {1};
    hide Reaches;
    SettledReach(OneService(), Mixed());
  }

  lemma MixedIsReached()
    ensures Reaches(OneService(), Mixed())
  {
    hide Reaches, Settled, Blocked;
    StaleStopTakesAnother();
    var end := Registry(map[], map[], map["b" := 1], {}, {1});
    var a := end.(free := {});
    assert {1} - {1} == {};
    Then(OneService(), end, Action.TakeFree(0, 1), Go(a, 0, BootAllocated(1)));
    BootContinues(OneService(), a, 0, 1, Outcome(true, true, "c", true, false));
    assert Registered(a, 1, Outcome(true, true, "c", true, false)) == Mixed();
  }

  lemma OverrunStop(named: State, end: State)
    requires named == Registry(map[0 := StopNamed(1, "a")], map[1 := "b"], map["b" := 1], {}, {})
    requires end == Registry(map[], map[], map["b" := 1], {}, {1})
    requires Reaches(OneService(), named)
    ensures Reaches(OneService(), end)
  {
    hide Reaches;
    var s := Registry(map[], map[], map["b" := 1], {}, {});
    assert named.services - {1} == map[];
    Then(OneService(), named, WithdrawNamed(0), Go(s, 0, StopUnnamed(1)));
    StopFinishes(OneService(), s, 0, 1);
    assert s.tickers - {1} == {} && s.free + {1} == {1};
  }

  /** A boot of "a" up to the check of its name. */
  lemma CheckedBoot()
    ensures Reaches(NoService(), Registry(map[0 := BootUnique(1, "a")], map[], map[], {}, {}))
  {
    hide Reaches;
    var s0 := NoService();
    var s := Registry(map[], map[], map[], {}, {});
    assert {1} - {1} == {};
    Stay(s0);
    Then(s0, s0, Action.TakeFree(0, 1), Go(s, 0, BootAllocated(1)));
    Then(s0, Go(s, 0, BootAllocated(1)), CheckId(0), Go(s, 0, BootChecked(1)));
    Then(s0, Go(s, 0, BootChecked(1)), Initialize(0, true, "a"), Go(s, 0, BootNamed(1, "a")));
    Then(s0, Go(s, 0, BootNamed(1, "a")), CheckName(0), Go(s, 0, BootUnique(1, "a")));
  }

  /** A boot of "a" up to the ticker of its service. */
  lemma TickingBoot()
    ensures Reaches(NoService(), Registry(map[0 := BootReady(1, "a")], map[], map[], {1}, {}))
  {
    CheckedBoot();
    hide Reaches;
    var s0 := NoService();
    var s := Registry(map[], map[], map[], {}, {});
    Then(s0, Go(s, 0, BootUnique(1, "a")), StartService(0, true, true), Go(s, 0, BootTicking(1, "a")));
    Then(s0, Go(s, 0, BootTicking(1, "a")), BootTicker(0), Go(s.(tickers := {1}), 0, BootReady(1, "a")));
  }

  /** Two boots that both find the name free are both accepted; only the later one is found by it. */
  lemma TwoBootsShareAName()
    ensures var end := State(map[1 := "a", 2 := "a"], map["a" := 1], {}, {}, 2, {}, map[]);
            Reaches(NoService(), end) && Settled(end) && !Indexed(end.services, end.names)
  {
    StartsAreOrderly();
    var end := State(map[1 := "a", 2 := "a"], map["a" := 1], {}, {}, 2, {}, map[]);
    assert end.services[2] == "a";
    hide Reaches, Indexed;
    EarlyBoot();
    LateBoot(State(map[2 := "a"], map["a" := 2], {}, {}, 2, {}, map[0 := BootUnique(1, "a")]), end);
    SettledReach(NoService(), end);
  }

  lemma EarlyBoot()
    ensures Reaches(NoService(), State(map[2 := "a"], map["a" := 2], {}, {}, 2, {}, map[0 := BootUnique(1, "a")]))
  {
    CheckedBoot();
    hide Reaches;
    var s0 := NoService();
    var checked := Registry(map[0 := BootUnique(1, "a")], map[], map[], {}, {});
    var a := checked.(next := 2);
    Then(s0, checked, SeeNone(1), Go(checked, 1, BootMissed));
    Then(s0, Go(checked, 1, BootMissed), TakeNext(1), Go(a, 1, BootAllocated(2)));
    BootContinues(s0, a, 1, 2, Outcome(true, true, "a", true, false));
    assert Registered(a, 2, Outcome(true, true, "a", true, false)) ==
             a.(services := map[2 := "a"], names := map["a" := 2]);
  }

  lemma LateBoot(first: State, end: State)
    requires first == State(map[2 := "a"], map["a" := 2], {}, {}, 2, {}, map[0 := BootUnique(1, "a")])
    requires end == State(map[1 := "a", 2 := "a"], map["a" := 1], {}, {}, 2, {}, map[])
    requires Reaches(NoService(), first)
    ensures Reaches(NoService(), end)
  {
    hide Reaches;
    var idle := first.(pcs := map[]);
    assert Go(idle, 0, BootUnique(1, "a")) == first;
    ReachExtends(NoService(), first, StartService(0, true, false));
    BootFinishes(NoService(), idle, 0, 1, Outcome(true, true, "a", true, false));
    assert Registered(idle, 1, Outcome(true, true, "a", true, false)) == end;
  }

  /** An update pass between the start of a service and its registration drops its request for updates. */
  lemma EarlyPassDropsTicker()
    ensures var end := Registry(map[], map[1 := "a"], map["a" := 1], {}, {});
            Reaches(NoService(), end) &&
            Booted(NoService(), 1, Outcome(true, true, "a", true, true)) == end.(tickers := {1})
  {
    TickingBoot();
    hide Reaches;
    var s0 := NoService();
    assert {1} - {1} == {};
    var ready := Registry(map[0 := BootReady(1, "a")], map[], map[], {1}, {});
    Then(s0, ready, UpdatePass, ready.(tickers := {}));
    Then(s0, ready.(tickers := {}), Insert(0), Registry(map[], map[1 := "a"], map["a" := 1], {}, {}));
  }
}
