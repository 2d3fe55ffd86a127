/**
 The listener index of the event module: a map of events to maps of ids to weak pointers, kept once
 for services and once for players.  `listeners` is the relation that the nested maps stand for.
 */
module EventIndex {
  import opened Wrappers
  import opened Collections
  import opened EventListeners

  type Table = map<int, map<int, Agent>>

  function Lookup(table: Table, event: int, id: int): Option<Agent> {
    if event in table && id in table[event] then Some(table[event][id]) else None
  }

  ghost predicate Represents(table: Table, listeners: Listeners) {
    forall event, id ::
      Lookup(table, event, id) == if (event, id) in listeners then Some(listeners[(event, id)]) else None
  }

  class ListenerIndex {
    var table: Table
    /** A purge has been requested and not finished. */
    var waiting: bool
    ghost var listeners: Listeners

    ghost predicate Valid()
      reads this
    {
      Represents(table, listeners)
    }

    constructor ()
      ensures Valid() && listeners == map[] && !waiting
    {
      table, waiting, listeners := map[], false, map[];
    }

    /** A listener registered twice for one event keeps the later agent. */
    method Listen(event: int, id: int, agent: Agent)
      requires Valid()
      modifies this
      ensures Valid() && waiting && listeners == old(listeners)[(event, id) := agent]
      ensures forall e, i :: Lookup(table, e, i) == if e == event && i == id then Some(agent)
                else Lookup(old(table), e, i)
    {
      if event !in table {
        table := table[event := map[]];
      }
      table := table[event := table[event][id := agent]];
      listeners := listeners[(event, id) := agent];
      waiting := true;
    }

    /** An event without listeners is dropped from the table; an unknown one requests no purge. */
    method RemoveByEvent(event: int, id: int)
      requires Valid()
      modifies this
      ensures Valid() && listeners == old(listeners) - {(event, id)}
      ensures forall e, i :: Lookup(table, e, i) == if e == event && i == id then None else Lookup(old(table), e, i)
      ensures waiting == (old(waiting) || event in old(table))
    {
      listeners := listeners - {(event, id)};
      if event !in table {
        ErasedOne(table, old(listeners), table, event, id);
        return;
      }
      table := table[event := table[event] - {id}];
      if table[event] == map[] {
        table := table - {event};
      }
      ErasureLooksUp(old(table), event, id);
      ErasedOne(old(table), old(listeners), table, event, id);
      waiting := true;
    }

    method RemoveListener(id: int)
      requires Valid()
      modifies this
      ensures Valid() && waiting && listeners == WithoutId(old(listeners), id)
      ensures forall k :: k in listeners <==> k in old(listeners) && k.1 != id
      ensures forall k | k in listeners :: listeners[k] == old(listeners)[k]
      ensures forall e, i :: Lookup(table, e, i) == if i == id then None else Lookup(old(table), e, i)
    {
      var ahead := table.Keys;
      while ahead != {}
        invariant ahead <= table.Keys == old(table.Keys)
        invariant forall e | e in table :: table[e] == if e in ahead then old(table)[e] else old(table)[e] - {id}
        decreases |ahead|
      {
        var e := Pick(ahead);
        ahead := ahead - {e};
        table := table[e := table[e] - {id}];
      }
      listeners := WithoutId(old(listeners), id);
      ErasedEverywhere(old(table), old(listeners), table, id);
      waiting := true;
    }

    /** The purge itself: drops the entries of expired agents and keeps all others. */
    method Purge(dead: set<Agent>)
      requires Valid()
      modifies this
      ensures Valid() && !waiting && listeners == Unexpired(old(listeners), dead)
      ensures forall k :: k in listeners <==> k in old(listeners) && old(listeners)[k] !in dead
      ensures forall k | k in listeners :: listeners[k] == old(listeners)[k]
    {
      var ahead := table.Keys;
      while ahead != {}
        invariant ahead <= table.Keys == old(table.Keys)
        invariant forall e | e in table :: table[e] == if e in ahead then old(table)[e] else Kept(old(table)[e], dead)
        decreases |ahead|
      {
        var e := Pick(ahead);
        ahead := ahead - {e};
        var kept := PurgeType(table[e], dead);
        table := table[e := kept];
      }
      listeners := Unexpired(old(listeners), dead);
      PurgedEverywhere(old(table), old(listeners), table, dead);
      waiting := false;
    }

    /** Each unexpired listener of the event is reached exactly once, in no particular order. */
    method Dispatch(event: int, dead: set<Agent>) returns (pushed: seq<(int, Agent)>)
      requires Valid()
      modifies this`waiting
      ensures waiting && Distinct(pushed)
      ensures forall id, agent :: (id, agent) in pushed <==>
                id in Reached(State(listeners, dead), event) && Reached(State(listeners, dead), event)[id] == agent
      ensures forall id, agent :: (id, agent) in pushed <==>
                event in table && id in table[event] && table[event][id] == agent && agent !in dead
    {
      hide Reached, Represents;
      pushed := [];
      ReachedIs(table, listeners, dead, event);
      if event !in table {
        waiting := true;
        return;
      }
      var ahead := table[event].Keys;
      while ahead != {}
        invariant ahead <= table[event].Keys && Distinct(pushed)
        invariant forall id, agent :: (id, agent) in pushed <==>
                    id in table[event] && id !in ahead && table[event][id] == agent && agent !in dead
        decreases |ahead|
      {
        var id := Pick(ahead);
        ahead := ahead - {id};
        var agent := table[event][id];
        if agent !in dead {
          assert (id, agent) !in pushed;
          pushed := pushed + [(id, agent)];
        }
      }
      waiting := true;
    }
  }

  function Kept(m: map<int, Agent>, dead: set<Agent>): map<int, Agent> {
    map id | id in m && m[id] !in dead :: m[id]
  }

  /** The inner loop of the purge. */
  method PurgeType(m: map<int, Agent>, dead: set<Agent>) returns (kept: map<int, Agent>)
    ensures kept == Kept(m, dead)
  {
    kept := m;
    var ahead := m.Keys;
    while ahead != {}
      invariant ahead <= kept.Keys <= m.Keys && forall id | id in kept :: kept[id] == m[id]
      invariant forall id | id in m && id !in ahead :: id in kept <==> m[id] !in dead
      decreases |ahead|
    {
      var id := Pick(ahead);
      ahead := ahead - {id};
      if kept[id] in dead {
        kept := kept - {id};
      }
    }
    assert forall id :: id in kept <==> id in Kept(m, dead);
    assert forall id | id in kept :: kept[id] == Kept(m, dead)[id];
  }

  function Erase(table: Table, event: int, id: int): Table
    requires event in table
  {
    var left := table[event] - {id};
    if left == map[] then table - {event} else table[event := left]
  }

  lemma ErasureLooksUp(table: Table, event: int, id: int)
    requires event in table
    ensures table[event := table[event] - {id}] - {event} == table - {event}
    ensures forall e, i :: Lookup(Erase(table, event, id), e, i) == if e == event && i == id
              then None else Lookup(table, e, i)
  {
    forall e, i
      ensures Lookup(Erase(table, event, id), e, i) == if e == event && i == id then None else Lookup(table, e, i)
    {
      if e == event && i != id && i in table[event] {
        assert i in table[event] - {id};
      }
    }
  }

  lemma ErasedOne(table: Table, listeners: Listeners, after: Table, event: int, id: int)
    requires Represents(table, listeners)
    requires forall e, i :: Lookup(after, e, i) == if e == event && i == id then None else Lookup(table, e, i)
    ensures Represents(after, listeners - {(event, id)})
  {
    forall e, i
      ensures Lookup(after, e, i) ==
              if (e, i) in listeners - {(event, id)} then Some((listeners - {(event, id)})[(e, i)]) else None
    {
      assert Lookup(table, e, i) == if (e, i) in listeners then Some(listeners[(e, i)]) else None;
    }
  }

  lemma ErasedEverywhere(table: Table, listeners: Listeners, after: Table, id: int)
    requires Represents(table, listeners) && after.Keys == table.Keys
    requires forall e | e in after :: after[e] == table[e] - {id}
    ensures Represents(after, WithoutId(listeners, id))
  {
    forall e, i
      ensures Lookup(after, e, i) == if (e, i) in WithoutId(listeners, id)
                then Some(WithoutId(listeners, id)[(e, i)]) else None
    {
      assert Lookup(table, e, i) == if (e, i) in listeners then Some(listeners[(e, i)]) else None;
    }
  }

  lemma PurgedEverywhere(table: Table, listeners: Listeners, after: Table, dead: set<Agent>)
    requires Represents(table, listeners) && after.Keys == table.Keys
    requires forall e | e in after :: after[e] == Kept(table[e], dead)
    ensures Represents(after, Unexpired(listeners, dead))
  {
    forall e, i
      ensures Lookup(after, e, i) == if (e, i) in Unexpired(listeners, dead)
                then Some(Unexpired(listeners, dead)[(e, i)]) else None
    {
      assert Lookup(table, e, i) == if (e, i) in listeners then Some(listeners[(e, i)]) else None;
    }
  }

  /** What a dispatch reaches, read off the nested maps. */
  lemma ReachedIs(table: Table, listeners: Listeners, dead: set<Agent>, event: int)
    requires Represents(table, listeners)
    ensures var r := Reached(State(listeners, dead), event);
            forall id :: (id in r <==> Lookup(table, event, id).Some? && Lookup(table, event, id).value !in dead) &&
                         (id in r ==> r[id] == Lookup(table, event, id).value)
  {
    var r := Reached(State(listeners, dead), event);
    forall id
      ensures id in r <==> Lookup(table, event, id).Some? && Lookup(table, event, id).value !in dead
      ensures id in r ==> r[id] == Lookup(table, event, id).value
    {
      assert Lookup(table, event, id) == if (event, id) in listeners then Some(listeners[(event, id)]) else None;
      if (event, id) in listeners && listeners[(event, id)] !in dead {
        assert id in r;
      }
    }
  }

  datatype Phase = Created | Initialized | Running | Stopped

  /** The guards around the two indexes: services have ids from 0 on, players from 1 on. */
  class EventModule {
    const services: ListenerIndex
    const players: ListenerIndex
    var phase: Phase
    /** The server is shutting down. */
    var terminated: bool

    ghost predicate Valid()
      reads this, services, players
    {
      services != players && services.Valid() && players.Valid()
    }

    constructor ()
      ensures Valid() && fresh(services) && fresh(players) && phase == Created && !terminated
      ensures services.listeners == map[] && players.listeners == map[]
    {
      services := new ListenerIndex();
      players := new ListenerIndex();
      phase, terminated := Created, false;
    }

    /** Reaches services and then players; without effect unless running with a valid event. */
    method Dispatch(event: int, dead: set<Agent>) returns (toServices: seq<(int, Agent)>, toPlayers: seq<(int, Agent)>)
      requires Valid()
      modifies services`waiting, players`waiting
      ensures Distinct(toServices) && Distinct(toPlayers)
      ensures phase != Running || event < 0 ==> toServices == [] && toPlayers == []
      ensures phase == Running && event >= 0 ==>
                forall id, agent :: (id, agent) in toServices <==>
                  (event, id) in services.listeners && services.listeners[(event, id)] == agent && agent !in dead
      ensures phase == Running && event >= 0 ==>
                forall id, agent :: (id, agent) in toPlayers <==>
                  (event, id) in players.listeners && players.listeners[(event, id)] == agent && agent !in dead
    {
      toServices, toPlayers := [], [];
      if phase != Running {
        return;
      }
      if event < 0 {
        return;
      }
      hide Reached, Represents;
      toServices := services.Dispatch(event, dead);
      toPlayers := players.Dispatch(event, dead);
    }

    method ServiceListenEvent(sid: int, agent: Agent, event: int)
      requires Valid()
      modifies services
      ensures Valid()
      ensures services.listeners == if phase == Created || sid < 0 || event < 0 then old(services.listeners)
                                    else old(services.listeners)[(event, sid) := agent]
      ensures services.listeners == if phase == Created then old(services.listeners)
                                    else Apply(State(old(services.listeners), {}), 0,
                                      Op.Listen(event, sid, agent)).listeners
    {
      if phase == Created {
        return;
      }
      if sid < 0 || event < 0 {
        return;
      }
      services.Listen(event, sid, agent);
    }

    method RemoveServiceListenerByEvent(sid: int, event: int)
      requires Valid()
      modifies services
      ensures Valid()
      ensures services.listeners ==
              if phase == Created || terminated || sid < 0 || event < 0 then old(services.listeners)
              else old(services.listeners) - {(event, sid)}
      ensures services.listeners == if phase == Created || terminated then old(services.listeners)
                                    else Apply(State(old(services.listeners), {}), 0,
                                      Op.RemoveByEvent(event, sid)).listeners
    {
      if phase == Created || terminated {
        return;
      }
      if sid < 0 || event < 0 {
        return;
      }
      services.RemoveByEvent(event, sid);
    }

    method RemoveServiceListener(sid: int)
      requires Valid()
      modifies services
      ensures Valid()
      ensures phase == Created || terminated || sid < 0 ==> services.listeners == old(services.listeners)
      ensures phase != Created && !terminated && sid >= 0 ==>
                forall k :: k in services.listeners <==> k in old(services.listeners) && k.1 != sid
      ensures forall k | k in services.listeners :: services.listeners[k] == old(services.listeners)[k]
      ensures services.listeners == if phase == Created || terminated then old(services.listeners)
                                    else Apply(State(old(services.listeners), {}), 0, Op.RemoveListener(sid)).listeners
    {
      if phase == Created || terminated {
        return;
      }
      if sid < 0 {
        return;
      }
      services.RemoveListener(sid);
    }

    method PlayerListenEvent(pid: int, agent: Agent, event: int)
      requires Valid()
      modifies players
      ensures Valid()
      ensures players.listeners == if phase == Created || pid < 1 || event < 0 then old(players.listeners)
                                    else old(players.listeners)[(event, pid) := agent]
      ensures players.listeners == if phase == Created then old(players.listeners)
                                   else Apply(State(old(players.listeners), {}), 1,
                                     Op.Listen(event, pid, agent)).listeners
    {
      if phase == Created {
        return;
      }
      if pid <= 0 || event < 0 {
        return;
      }
      players.Listen(event, pid, agent);
    }

    method RemovePlayerListenerByEvent(pid: int, event: int)
      requires Valid()
      modifies players
      ensures Valid()
      ensures players.listeners ==
              if phase == Created || terminated || pid < 1 || event < 0 then old(players.listeners)
              else old(players.listeners) - {(event, pid)}
      ensures players.listeners == if phase == Created || terminated then old(players.listeners)
                                   else Apply(State(old(players.listeners), {}), 1,
                                     Op.RemoveByEvent(event, pid)).listeners
    {
      if phase == Created || terminated {
        return;
      }
      if pid <= 0 || event < 0 {
        return;
      }
      players.RemoveByEvent(event, pid);
    }

    method RemovePlayerListener(pid: int)
      requires Valid()
      modifies players
      ensures Valid()
      ensures phase == Created || terminated || pid < 1 ==> players.listeners == old(players.listeners)
      ensures phase != Created && !terminated && pid >= 1 ==>
                forall k :: k in players.listeners <==> k in old(players.listeners) && k.1 != pid
      ensures forall k | k in players.listeners :: players.listeners[k] == old(players.listeners)[k]
      ensures players.listeners == if phase == Created || terminated then old(players.listeners)
                                   else Apply(State(old(players.listeners), {}), 1, Op.RemoveListener(pid)).listeners
    {
      if phase == Created || terminated {
        return;
      }
      if pid <= 0 {
        return;
      }
      players.RemoveListener(pid);
    }
  }
}
