/**
 The service registry while any number of threads boot and shut services down.

 Each separately locked section of the registry and each atomic step of its id allocator is one
 action; every interleaving of boots, both shutdowns, ticker calls and update passes is a run.
 What service code decides (whether it starts, under which name) is a parameter of the action.
 The registry is running; an agent is represented by its service name.
 */
module ServiceSteps {
  type Name = string
  type Thread = nat

  /** Where a boot or a shutdown stands between two sections. */
  datatype Pc =
    /** AllocateTS saw no free id. */
    | BootMissed
    | BootAllocated(sid: int)
    | BootChecked(sid: int)
    /** The agent is initialized under a defined name. */
    | BootNamed(sid: int, name: Name)
    | BootUnique(sid: int, name: Name)
    /** The service started and asked for updates. */
    | BootTicking(sid: int, name: Name)
    | BootReady(sid: int, name: Name)
    | BootFailed(sid: int)
    /** Shutdown by id erased the service. */
    | StopWithdrawn(sid: int, name: Name)
    /** Shutdown by name erased the name; what it finds under the id it compares with that name. */
    | StopNamed(sid: int, name: Name)
    | StopUnnamed(sid: int)
    | StopSilent(sid: int)

  /** `leaked` are ids that were allocated and dropped without being returned (history). */
  datatype State = State(
    services: map<int, Name>, names: map<Name, int>, tickers: set<int>,
    free: set<int>, next: int, leaked: set<int>, pcs: map<Thread, Pc>)

  datatype Action =
    | TakeFree(t: Thread, sid: int)
    | SeeNone(t: Thread)
    | TakeNext(t: Thread)
    | CheckId(t: Thread)
    | Initialize(t: Thread, ok: bool, name: Name)
    | CheckName(t: Thread)
    | StartService(t: Thread, ok: bool, ticks: bool)
    | BootTicker(t: Thread)
    | Insert(t: Thread)
    | BootReturn(t: Thread)
    | WithdrawById(t: Thread, sid: int)
    | EraseName(t: Thread)
    | TakeName(t: Thread, name: Name)
    | WithdrawNamed(t: Thread)
    | EraseTicker(t: Thread)
    | StopReturn(t: Thread)
    | InsertTicker(sid: int)
    | RemoveTicker(sid: int)
    | UpdatePass

  predicate Idle(s: State, t: Thread) {
    t !in s.pcs
  }

  predicate Enabled(s: State, a: Action) {
    match a
    case TakeFree(t, sid) => Idle(s, t) && sid in s.free
    case SeeNone(t) => Idle(s, t) && s.free == {}
    case TakeNext(t) => t in s.pcs && s.pcs[t].BootMissed?
    case CheckId(t) => t in s.pcs && s.pcs[t].BootAllocated?
    case Initialize(t, _, _) => t in s.pcs && s.pcs[t].BootChecked?
    case CheckName(t) => t in s.pcs && s.pcs[t].BootNamed?
    case StartService(t, _, _) => t in s.pcs && s.pcs[t].BootUnique?
    case BootTicker(t) => t in s.pcs && s.pcs[t].BootTicking?
    case Insert(t) => t in s.pcs && s.pcs[t].BootReady?
    case BootReturn(t) => t in s.pcs && s.pcs[t].BootFailed?
    case WithdrawById(t, _) => Idle(s, t)
    case EraseName(t) => t in s.pcs && s.pcs[t].StopWithdrawn?
    case TakeName(t, _) => Idle(s, t)
    case WithdrawNamed(t) => t in s.pcs && s.pcs[t].StopNamed?
    case EraseTicker(t) => t in s.pcs && s.pcs[t].StopUnnamed?
    case StopReturn(t) => t in s.pcs && s.pcs[t].StopSilent?
    case InsertTicker(_) => true
    case RemoveTicker(_) => true
    case UpdatePass => true
  }

  function Go(s: State, t: Thread, pc: Pc): State {
    s.(pcs := s.pcs[t := pc])
  }

  function Rest(s: State, t: Thread): State {
    s.(pcs := s.pcs - {t})
  }

  /** "Service ID Repeated" returns without recycling the id. */
  function DoCheckId(s: State, t: Thread, sid: int): State {
    if sid in s.services then Rest(s.(leaked := s.leaked + {sid}), t) else Go(s, t, BootChecked(sid))
  }

  function DoInitialize(s: State, t: Thread, sid: int, ok: bool, name: Name): State {
    if !ok || name == "" || name == "UNKNOWN" then Go(s, t, BootFailed(sid)) else Go(s, t, BootNamed(sid, name))
  }

  function DoCheckName(s: State, t: Thread, sid: int, name: Name): State {
    Go(s, t, if name in s.names then BootFailed(sid) else BootUnique(sid, name))
  }

  function DoStartService(s: State, t: Thread, sid: int, name: Name, ok: bool, ticks: bool): State {
    Go(s, t, if !ok then BootFailed(sid) else if ticks then BootTicking(sid, name) else BootReady(sid, name))
  }

  function DoInsert(s: State, t: Thread, sid: int, name: Name): State {
    Rest(s.(services := s.services[sid := name], names := s.names[name := sid]), t)
  }

  function DoWithdrawById(s: State, t: Thread, sid: int): State {
    if sid !in s.services then s
    else Go(s.(services := s.services - {sid}), t, StopWithdrawn(sid, s.services[sid]))
  }

  function DoTakeName(s: State, t: Thread, name: Name): State {
    if name !in s.names then s
    else if s.names[name] < 0 then s.(names := s.names - {name})
    else Go(s.(names := s.names - {name}), t, StopNamed(s.names[name], name))
  }

  function DoWithdrawNamed(s: State, t: Thread, sid: int): State {
    if sid !in s.services then Rest(s, t) else Go(s.(services := s.services - {sid}), t, StopUnnamed(sid))
  }

  function DoReturn(s: State, t: Thread, sid: int): State {
    Rest(s.(free := s.free + {sid}), t)
  }

  function Next(s: State, a: Action): State
    requires Enabled(s, a)
  {
    match a
    case TakeFree(t, sid) => Go(s.(free := s.free - {sid}), t, BootAllocated(sid))
    case SeeNone(t) => Go(s, t, BootMissed)
    case TakeNext(t) => Go(s.(next := s.next + 1), t, BootAllocated(s.next + 1))
    case CheckId(t) => DoCheckId(s, t, s.pcs[t].sid)
    case Initialize(t, ok, name) => DoInitialize(s, t, s.pcs[t].sid, ok, name)
    case CheckName(t) => DoCheckName(s, t, s.pcs[t].sid, s.pcs[t].name)
    case StartService(t, ok, ticks) => DoStartService(s, t, s.pcs[t].sid, s.pcs[t].name, ok, ticks)
    case BootTicker(t) => Go(s.(tickers := s.tickers + {s.pcs[t].sid}), t, BootReady(s.pcs[t].sid, s.pcs[t].name))
    case Insert(t) => DoInsert(s, t, s.pcs[t].sid, s.pcs[t].name)
    case BootReturn(t) => DoReturn(s, t, s.pcs[t].sid)
    case WithdrawById(t, sid) => DoWithdrawById(s, t, sid)
    case EraseName(t) => Go(s.(names := s.names - {s.pcs[t].name}), t, StopUnnamed(s.pcs[t].sid))
    case TakeName(t, name) => DoTakeName(s, t, name)
    case WithdrawNamed(t) => DoWithdrawNamed(s, t, s.pcs[t].sid)
    case EraseTicker(t) => Go(s.(tickers := s.tickers - {s.pcs[t].sid}), t, StopSilent(s.pcs[t].sid))
    case StopReturn(t) => DoReturn(s, t, s.pcs[t].sid)
    case InsertTicker(sid) => if sid < 0 then s else s.(tickers := s.tickers + {sid})
    case RemoveTicker(sid) => if sid < 0 then s else s.(tickers := s.tickers - {sid})
    case UpdatePass => s.(tickers := s.tickers * s.services.Keys)
  }

  predicate IsRun(s: State, run: seq<Action>)
    decreases |run|
  {
    run == [] || (Enabled(s, run[0]) && IsRun(Next(s, run[0]), run[1..]))
  }

  function After(s: State, run: seq<Action>): State
    requires IsRun(s, run)
    decreases |run|
  {
    if run == [] then s else After(Next(s, run[0]), run[1..])
  }

  lemma {:induction false} RunExtends(s: State, run: seq<Action>, a: Action)
    requires IsRun(s, run) && Enabled(After(s, run), a)
    ensures IsRun(s, run + [a]) && After(s, run + [a]) == Next(After(s, run), a)
    decreases |run|
  {
    hide Enabled, Next;
    if run == [] {
      assert run + [a] == [a] && [a][1..] == [];
      assert IsRun(Next(s, a), []) && After(Next(s, a), []) == Next(s, a);
    } else {
      RunExtends(Next(s, run[0]), run[1..], a);
      assert (run + [a])[1..] == run[1..] + [a];
    }
  }
}
