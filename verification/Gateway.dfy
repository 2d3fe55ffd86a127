/**
 The gateway and its agents as classes, one operation at a time.  Every method is proved to be the
 step of the session system, so the theorems about every run hold between any two calls.
 */
module GatewayClass {
  import opened Wrappers
  import opened GatewaySteps
  import opened GatewayTheorems
  import opened CachePurge
  import opened Collections

  class PlayerAgent {
    const id: AgentId
    const key: Key
    var player: Option<Player>
    var cachable: bool
    var open: bool

    constructor (id: AgentId, key: Key)
      ensures this.id == id && View() == Agent(key, None, true, true)
    {
      this.id, this.key, player, cachable, open := id, key, None, true, true;
    }

    ghost function View(): Agent
      reads this
    {
      Agent(key, player, cachable, open)
    }

    method Disconnect()
      modifies this`open
      ensures !open
    {
      open := false;
    }

    /** Hands back a player that it does not take, or else the one that it replaces. */
    method SetUpPlayer(guards: Guards, q: Player) returns (left: Option<Player>)
      modifies this`player
      ensures left == (if open && (old(player).None? <==> guards == AsMeant) then old(player) else Some(q))
      ensures player == (if open && (old(player).None? <==> guards == AsMeant) then Some(q) else old(player))
    {
      if !open {
        return Some(q);
      }
      if player.None? == (guards == AsWritten) {
        return Some(q);
      }
      left := player;
      player := Some(q);
    }

    method ExtractPlayer() returns (p: Player)
      requires player.Some?
      modifies this`player
      ensures old(player) == Some(p) && player == None
    {
      p := player.value;
      player := None;
    }

    /** As written this throws before it does anything. */
    method OnRepeated(guards: Guards, closes: bool) returns (thrown: bool)
      modifies this`cachable, this`open
      ensures thrown <==> guards == AsWritten
      ensures thrown ==> cachable == old(cachable) && open == old(open)
      ensures !thrown ==> !cachable && open == (old(open) && !closes)
    {
      if guards == AsWritten {
        return true;
      }
      cachable := false;
      if closes {
        Disconnect();
      }
      thrown := false;
    }
  }

  /** A map to agents as a map to their numbers. */
  function Numbers<K>(m: map<K, PlayerAgent>): map<K, AgentId> {
    map k | k in m :: m[k].id
  }

  lemma NumbersFollow<K>(m: map<K, PlayerAgent>, k: K, agent: PlayerAgent)
    ensures Numbers(m[k := agent]) == Numbers(m)[k := agent.id]
    ensures Numbers(m - {k}) == Numbers(m) - {k}
  {
  }

  lemma NumbersAt<K>(m: map<K, PlayerAgent>, k: K)
    ensures k in m <==> k in Numbers(m)
    ensures k in m ==> Numbers(m)[k] == m[k].id
  {
  }

  ghost function Admitted(s: State, key: Key, pid: int, displaced: Option<Player>, a: AgentId): State {
    var unused := if displaced.Some? && pid in s.cache then {s.cache[pid].player.instance} else {};
    s.(agentMap := s.agentMap - {key}, playerMap := s.playerMap[pid := a], cache := s.cache - {pid},
      gone := s.gone + unused)
  }

  ghost predicate Numbered(agents: map<AgentId, PlayerAgent>) {
    forall i | i in agents :: agents[i].id == i
  }

  ghost predicate Known<K>(agents: map<AgentId, PlayerAgent>, m: map<K, PlayerAgent>) {
    forall k | k in m :: m[k].id in agents && agents[m[k].id] == m[k]
  }

  lemma KnownFollows<K>(agents: map<AgentId, PlayerAgent>, m: map<K, PlayerAgent>, k: K, agent: PlayerAgent)
    requires Known(agents, m) && agent.id in agents && agents[agent.id] == agent
    ensures Known(agents, m[k := agent]) && Known(agents, m - {k})
  {
  }

  lemma KnownByNumber<K>(
    agents: map<AgentId, PlayerAgent>, m: map<K, PlayerAgent>, n: map<K, PlayerAgent>, k: K, a: PlayerAgent)
    requires Known(agents, m) && Known(agents, n) && a.id in agents && agents[a.id] == a
    ensures Numbers(n) == Numbers(m)[k := a.id] ==> n == m[k := a]
    ensures Numbers(n) == Numbers(m) - {k} ==> n == m - {k}
  {
    hide Numbers;
    forall j
      ensures j in m ==> j in Numbers(m) && Numbers(m)[j] == m[j].id
      ensures j in n ==> j in Numbers(n) && Numbers(n)[j] == n[j].id
      ensures (j in m <==> j in Numbers(m)) && (j in n <==> j in Numbers(n))
    {
      NumbersAt(m, j);
      NumbersAt(n, j);
    }
  }

  lemma NewAgentIsKnown<K, L>(
    agents: map<AgentId, PlayerAgent>, a: PlayerAgent, m: map<K, PlayerAgent>, k: K, n: map<L, PlayerAgent>)
    requires Numbered(agents) && Known(agents, m) && Known(agents, n) && a.id !in agents
    ensures Numbered(agents[a.id := a]) && Known(agents[a.id := a], m[k := a]) && Known(agents[a.id := a], n)
  {
  }

  lemma DisplacingEnters(g: Guards, s: State, key: Key, pid: int, closes: bool)
    requires s.running && pid in s.playerMap && AgentOf(s, s.playerMap[pid]).key != key
    requires AgentOf(s, s.playerMap[pid]).player.Some?
    ensures var ex := s.playerMap[pid];
            var without := s.(agents := s.agents[ex := s.agents[ex].(player := None)],
                              playerMap := s.playerMap - {pid});
            DoLogin(g, s, key, pid, closes) == Enter(g, without, key, pid, s.agents[ex].player, Some(ex), closes)
  {
    hide Enter;
  }

  lemma CollectIsStep(g: Guards, s: State, dropped: set<int>)
    requires Reachable(g, s) && !s.crashed && s.running && dropped <= s.cache.Keys
    ensures Reachable(g, DoCollect(s, dropped))
  {
    hide Reachable;
    Then(g, s, Action.Collect(dropped));
  }

  class Gateway {
    const guards: Guards
    var agentMap: map<Key, PlayerAgent>
    var playerMap: map<int, PlayerAgent>
    var cache: map<int, Cached>
    var created: nat
    var running: bool
    var crashed: bool
    /** Every agent ever connected, by number. */
    ghost var agents: map<AgentId, PlayerAgent>
    ghost var lost: set<nat>
    ghost var gone: set<nat>

    ghost function AgentViews(): (r: map<AgentId, Agent>)
      reads this`agents, agents.Values
      ensures r.Keys == agents.Keys
    {
      map i | i in agents :: agents[i].View()
    }

    ghost function View(): State
      reads this, agents.Values
    {
      State(AgentViews(), Numbers(agentMap), Numbers(playerMap),
            cache, created, lost, gone, running, crashed)
    }

    ghost predicate Linked()
      reads this`agents, this`agentMap, this`playerMap
    {
      Numbered(agents) && Known(agents, agentMap) && Known(agents, playerMap)
    }

    ghost predicate Valid()
      reads this, agents.Values
    {
      Linked() && Reachable(guards, View())
    }

    constructor (guards: Guards)
      ensures Valid() && this.guards == guards && View() == Empty() && agents == map[]
    {
      this.guards := guards;
      agentMap, playerMap, cache, agents := map[], map[], map[], map[];
      created, running, crashed, lost, gone := 0, true, false, {}, {};
      new;
      assert View() == Empty();
      assert IsRun(guards, Empty(), []) && After(guards, Empty(), []) == Empty();
    }

    /** A client arrives; the agent's number has not been used. */
    method Connect(id: AgentId, key: Key) returns (agent: PlayerAgent)
      requires Valid() && !crashed && running && id !in agents
      modifies this
      ensures Valid() && fresh(agent) && agent.id == id && agent.key == key
      ensures View() == DoConnect(old(View()), id, key) && agent.player == None && agent.cachable && agent.open
      ensures if key == "" || key in old(agentMap) then agents == old(agents) && agentMap == old(agentMap)
              else agents == old(agents)[id := agent] && agentMap == old(agentMap)[key := agent]
      ensures playerMap == old(playerMap) && cache == old(cache)
    {
      hide Reachable, Numbers, AgentViews, Known, Numbered;
      ghost var start := View();
      Then(guards, start, Action.Connect(id, key));
      agent := new PlayerAgent(id, key);
      NumbersFollow(agentMap, key, agent);
      NumbersAt(agentMap, key);
      if key == "" {
        assert View() == start;
        return;
      }
      if key in agentMap {
        assert View() == start;
        return;
      }
      agents := agents[id := agent];
      agentMap := agentMap[key := agent];
      AgentAdded(agent);
      NewAgentIsKnown(old(agents), agent, old(agentMap), key, playerMap);
      assert View() == DoConnect(start, id, key);
    }

    // -------------------------------------------------------------------------------------------
    // How the view follows one change

    /** At most one agent's fields differ. */
    twostate lemma AgentChanged(a: PlayerAgent)
      requires old(Linked()) && agents == old(agents) && a.id in agents && agents[a.id] == a
      requires forall i | i in agents && agents[i] != a :: unchanged(agents[i])
      ensures AgentViews() == old(AgentViews())[a.id := a.View()]
    {
    }

    twostate lemma AgentAdded(new a: PlayerAgent)
      requires a.id !in old(agents) && agents == old(agents)[a.id := a]
      requires forall i | i in old(agents) :: unchanged(old(agents)[i])
      ensures AgentViews() == old(AgentViews())[a.id := a.View()]
    {
    }

    // -------------------------------------------------------------------------------------------
    // Login

    /** What a login that displaces a session has done to the agents; `s`, `names` and `waiting` are as before it. */
    lemma DisplacedFields(
      s: State, names: map<int, PlayerAgent>, waiting: map<Key, PlayerAgent>, key: Key, pid: int, closes: bool)
      requires Linked() && guards == AsMeant && Reachable(guards, s) && !s.crashed && s.running
      requires Known(agents, names) && Known(agents, waiting)
      requires s.playerMap == Numbers(names) && s.agentMap == Numbers(waiting) && s.agents.Keys == agents.Keys
      requires key in waiting && pid in names && names[pid].key != key && s.agents[names[pid].id].key == names[pid].key
      requires s.agents[names[pid].id].player.Some? && View() == DoLogin(guards, s, key, pid, closes)
      ensures var existed, agent := names[pid], waiting[key];
              var was := s.agents[existed.id];
              existed != agent && existed.player == None && !existed.cachable &&
              (existed.open <==> was.open && !closes) &&
              agent.View() == s.agents[agent.id].(player :=
                if agent.open then Some(was.player.value.(pid := pid)) else None) &&
              playerMap == names[pid := agent] && agentMap == waiting - {key} &&
              forall i | i in agents && agents[i] != existed && agents[i] != agent :: agents[i].View() == s.agents[i]
    {
      hide Reachable, DoLogin, Numbers, AgentViews;
      var existed, agent := names[pid], waiting[key];
      AgentAt(existed);
      AgentAt(agent);
      NumbersAt(names, pid);
      NumbersAt(waiting, key);
      LoginDisplaces(s, key, pid, closes);
      forall i | i in agents && agents[i] != existed && agents[i] != agent
        ensures agents[i].View() == s.agents[i]
      {
        AgentAt(agents[i]);
      }
      KnownByNumber(agents, names, playerMap, pid, agent);
      KnownByNumber(agents, waiting, agentMap, key, agent);
    }

    /** What a login that displaces nobody has done to the agents. */
    lemma AdmittedFields(
      s: State, names: map<int, PlayerAgent>, waiting: map<Key, PlayerAgent>, key: Key, pid: int, closes: bool)
      requires Linked() && guards == AsMeant && Reachable(guards, s) && !s.crashed && s.running
      requires Known(agents, names) && Known(agents, waiting)
      requires s.playerMap == Numbers(names) && s.agentMap == Numbers(waiting) && s.agents.Keys == agents.Keys
      requires key in waiting && pid !in names && View() == DoLogin(guards, s, key, pid, closes)
      ensures var agent := waiting[key];
              agent.View() == s.agents[agent.id].(player :=
                if !agent.open then None
                else if pid in s.cache then Some(s.cache[pid].player) else Some(Player(s.created, pid))) &&
              playerMap == names[pid := agent] && agentMap == waiting - {key} && cache == s.cache - {pid} &&
              forall i | i in agents && agents[i] != agent :: agents[i].View() == s.agents[i]
    {
      hide Reachable, DoLogin, Numbers, AgentViews;
      var agent := waiting[key];
      AgentAt(agent);
      NumbersAt(names, pid);
      NumbersAt(waiting, key);
      LoginAdmits(s, key, pid, closes);
      forall i | i in agents && agents[i] != agent
        ensures agents[i].View() == s.agents[i]
      {
        AgentAt(agents[i]);
      }
      KnownByNumber(agents, names, playerMap, pid, agent);
      KnownByNumber(agents, waiting, agentMap, key, agent);
    }

    lemma AgentsAt()
      requires Numbered(agents)
      ensures forall i | i in agents :: AgentViews()[i] == agents[i].View()
    {
    }

    method OnPlayerLogin(key: Key, pid: int, closes: bool)
      requires Valid() && !crashed
      modifies this, agents.Values
      ensures Valid() && agents == old(agents) && View() == DoLogin(guards, old(View()), key, pid, closes)
      ensures guards == AsMeant && old(running) && key in old(agentMap) && pid in old(playerMap) &&
              old(playerMap)[pid].key != key && old(playerMap[pid].player).Some? ==>
                var existed, agent := old(playerMap)[pid], old(agentMap)[key];
                existed != agent && existed.player == None && !existed.cachable &&
                (existed.open <==> old(existed.open) && !closes) &&
                agent.player == (if agent.open then Some(old(existed.player.value).(pid := pid)) else None) &&
                agent.cachable == old(agent.cachable) && agent.open == old(agent.open) &&
                playerMap == old(playerMap)[pid := agent] && agentMap == old(agentMap) - {key} &&
                forall i | i in agents && agents[i] != existed && agents[i] != agent ::
                  agents[i].View() == old(agents[i].View())
      ensures guards == AsMeant && old(running) && key in old(agentMap) && pid !in old(playerMap) ==>
                var agent := old(agentMap)[key];
                agent.player == (if !agent.open then None
                                 else if pid in old(cache) then Some(old(cache)[pid].player)
                                 else Some(Player(old(created), pid))) &&
                agent.cachable == old(agent.cachable) && agent.open == old(agent.open) &&
                playerMap == old(playerMap)[pid := agent] && agentMap == old(agentMap) - {key} &&
                cache == old(cache) - {pid} &&
                forall i | i in agents && agents[i] != agent :: agents[i].View() == old(agents[i].View())
    {
      hide Reachable, Enter, Numbers, AgentViews;
      ghost var start := View();
      AgentsAt();
      Then(guards, start, Action.Login(key, pid, closes));
      if !running {
        return;
      }
      if pid in playerMap {
        NumbersFollow(playerMap, pid, playerMap[pid]);
        NumbersAt(playerMap, pid);
        var existed := playerMap[pid];
        AgentChanged(existed);
        if existed.key == key {
          return;
        }
        if existed.player.None? {
          crashed := true;
          assert View() == start.(crashed := true);
          return;
        }
        Displace(existed, key, pid, closes);
      } else {
        NumbersAt(playerMap, pid);
        EnterGateway(key, pid, None, null, closes);
        if guards == AsMeant && key in old(agentMap) {
          AdmittedFields(start, old(playerMap), old(agentMap), key, pid, closes);
        }
      }
    }

    /** The part of OnPlayerLogin for an id that another session has. */
    method Displace(existed: PlayerAgent, key: Key, pid: int, closes: bool)
      requires Valid() && !crashed && running && pid in playerMap && existed == playerMap[pid]
      requires existed.key != key && existed.player.Some?
      modifies this, agents.Values
      ensures Valid() && agents == old(agents) && View() == DoLogin(guards, old(View()), key, pid, closes)
      ensures guards == AsMeant && key in old(agentMap) ==>
                var agent := old(agentMap)[key];
                existed != agent && existed.player == None && !existed.cachable &&
                (existed.open <==> old(existed.open) && !closes) &&
                agent.player == (if agent.open then Some(old(existed.player.value).(pid := pid)) else None) &&
                agent.cachable == old(agent.cachable) && agent.open == old(agent.open) &&
                playerMap == old(playerMap)[pid := agent] && agentMap == old(agentMap) - {key} &&
                forall i | i in agents && agents[i] != existed && agents[i] != agent ::
                  agents[i].View() == old(agents[i].View())
    {
      hide Reachable, Enter, Numbers, AgentViews, DoLogin;
      ghost var start := View();
      AgentsAt();
      Then(guards, start, Action.Login(key, pid, closes));
      NumbersFollow(playerMap, pid, existed);
      NumbersAt(playerMap, pid);
      DisplacingEnters(guards, start, key, pid, closes);
      var player := existed.ExtractPlayer();
      playerMap := playerMap - {pid};
      AgentChanged(existed);
      EnterGateway(key, pid, Some(player), existed, closes);
      if guards == AsMeant && key in old(agentMap) {
        DisplacedFields(start, old(playerMap), old(agentMap), key, pid, closes);
      }
    }

    method Notify(existed: PlayerAgent, closes: bool) returns (thrown: bool)
      requires Linked() && existed.id in agents && agents[existed.id] == existed
      modifies existed`cachable, existed`open
      ensures Linked() && (thrown <==> guards == AsWritten)
      ensures View() == if thrown then old(View()) else Notified(old(View()), existed.id, closes)
      ensures if thrown then existed.cachable == old(existed.cachable) && existed.open == old(existed.open)
              else !existed.cachable && (existed.open <==> old(existed.open) && !closes)
    {
      hide Numbers, AgentViews;
      AgentAt(existed);
      thrown := existed.OnRepeated(guards, closes);
      AgentChanged(existed);
      assert old(AgentViews())[existed.id := old(AgentViews())[existed.id]] == old(AgentViews());
    }

    /** Moves the waiting agent to the player map and looks for a cached player. */
    method Admit(key: Key, pid: int, displaced: Option<Player>) returns (agent: PlayerAgent, player: Option<Player>)
      requires Linked() && key in agentMap
      modifies this`agentMap, this`playerMap, this`cache, this`gone
      ensures Linked() && agents == old(agents) && agent == old(agentMap)[key] && agent.id in agents &&
              agents[agent.id] == agent
      ensures player == (if displaced.None? && pid in old(cache) then Some(old(cache)[pid].player) else displaced)
      ensures View() == Admitted(old(View()), key, pid, displaced, agent.id)
    {
      hide Numbers, AgentViews;
      KnownFollows(agents, playerMap, pid, agentMap[key]);
      KnownFollows(agents, agentMap, key, agentMap[key]);
      hide Known, Numbered;
      agent := agentMap[key];
      NumbersFollow(agentMap, key, agent);
      NumbersFollow(playerMap, pid, agent);
      agentMap := agentMap - {key};
      playerMap := playerMap[pid := agent];
      player := TakeCached(pid, displaced);
    }

    /** The cached player is used unless one was taken over, and leaves the cache in either case. */
    method TakeCached(pid: int, displaced: Option<Player>) returns (player: Option<Player>)
      modifies this`cache, this`gone
      ensures player == (if displaced.None? && pid in old(cache) then Some(old(cache)[pid].player) else displaced)
      ensures cache == old(cache) - {pid}
      ensures gone == old(gone) + if displaced.Some? && pid in old(cache) then {old(cache)[pid].player.instance} else {}
    {
      player := displaced;
      ghost var unused := if player.Some? && pid in cache then {cache[pid].player.instance} else {};
      if player.None? {
        if pid in cache {
          player := Some(cache[pid].player);
          cache := cache - {pid};
        }
      }
      cache := cache - {pid};
      gone := gone + unused;
    }

    /** The part of OnPlayerLogin after the displaced session has been dealt with. */
    method EnterGateway(key: Key, pid: int, displaced: Option<Player>, existed: PlayerAgent?, closes: bool)
      requires Linked() && (existed != null ==> existed.id in agents && agents[existed.id] == existed)
      modifies this, agents.Values
      ensures Linked() && agents == old(agents)
      ensures View() == Enter(guards, old(View()), key, pid, displaced, if existed == null
                then None else Some(existed.id), closes)
    {
      hide Numbers, AgentViews, SetUpPlayer, Known, Numbered, Notified;
      NumbersAt(agentMap, key);
      if key !in agentMap {
        lost := lost + Instance(displaced);
        return;
      }
      var agent, player := Admit(key, pid, displaced);
      Welcome(agent, pid, displaced, player, existed, closes);
    }

    /** Tells the displaced session, which throws as written, and hands the player to the new one. */
    method Welcome(
      agent: PlayerAgent, pid: int, displaced: Option<Player>, found: Option<Player>, existed: PlayerAgent?,
        closes: bool)
      requires Linked() && agent.id in agents && agents[agent.id] == agent
      requires existed != null ==> existed.id in agents && agents[existed.id] == existed
      modifies this`created, this`lost, this`gone, agents.Values
      ensures Linked()
      ensures var s := old(View());
              var told := if existed == null then s else Notified(s, existed.id, closes);
              var made := if found.None? then 1 else 0;
              var q := if found.Some? then found.value.(pid := pid) else Player(s.created, pid);
              View() == if existed != null && guards == AsWritten then s.(lost := s.lost + Instance(displaced))
                        else SetUpPlayer(guards, told.(created := told.created + made), agent.id, q, found.Some?)
    {
      hide Numbers, AgentViews, SetUpPlayer, Known, Numbered;
      if existed != null {
        var thrown := Notify(existed, closes);
        if thrown {
          lost := lost + Instance(displaced);
          return;
        }
      }
      Deliver(agent, pid, found);
    }

    /** Resets the player or creates one, and sets the agent up with it. */
    method Deliver(agent: PlayerAgent, pid: int, found: Option<Player>)
      requires Linked() && agent.id in agents && agents[agent.id] == agent
      modifies this`created, this`lost, this`gone, agent`player
      ensures Linked()
      ensures var made := if found.None? then 1 else 0;
              var q := if found.Some? then found.value.(pid := pid) else Player(old(created), pid);
              View() == SetUpPlayer(guards, old(View()).(created := old(created) + made), agent.id, q, found.Some?)
    {
      hide Numbers, AgentViews, Known, Numbered;
      var player := found;
      if player.None? {
        player := Some(Player(created, pid));
        created := created + 1;
      }
      player := Some(player.value.(pid := pid));
      SetUp(agent, player.value, found.Some?);
    }

    /** Sets the agent up; what is left over is destroyed, and a new instance has not been saved. */
    method SetUp(agent: PlayerAgent, q: Player, saved: bool)
      requires Linked() && agent.id in agents && agents[agent.id] == agent
      modifies this`lost, this`gone, agent`player
      ensures Linked() && View() == SetUpPlayer(guards, old(View()), agent.id, q, saved)
    {
      hide Numbers, AgentViews, Known, Numbered;
      ghost var start := View();
      AgentAt(agent);
      ghost var refused := !agent.open || (agent.player.None? <==> guards == AsWritten);
      var left := agent.SetUpPlayer(guards, q);
      AgentChanged(agent);
      if refused && !saved {
        lost := lost + Instance(left);
      } else {
        gone := gone + Instance(left);
      }
      assert start.agents[agent.id := start.agents[agent.id]] == start.agents;
    }

    lemma AgentAt(a: PlayerAgent)
      requires a.id in agents && agents[a.id] == a
      ensures a.id in AgentViews() && AgentViews()[a.id] == a.View()
    {
    }

    // -------------------------------------------------------------------------------------------
    // Clean-up

    method RemovePlayer(pid: int)
      modifies this`playerMap
      ensures playerMap == if running then old(playerMap) - {pid} else old(playerMap)
    {
      if !running {
        return;
      }
      playerMap := playerMap - {pid};
    }

    method RemoveAgent(key: Key)
      modifies this`agentMap
      ensures agentMap == if running then old(agentMap) - {key} else old(agentMap)
    {
      if !running {
        return;
      }
      agentMap := agentMap - {key};
    }

    /** Takes the agent's player unless the gateway is stopped or the id is not positive. */
    method RecyclePlayer(agent: PlayerAgent, now: int)
      requires Linked() && agent.id in agents && agents[agent.id] == agent && agent.player.Some?
      modifies this`playerMap, this`cache, this`gone, agent`player
      ensures Linked() && View() == Recycled(old(View()), agent.id, old(agent.player.value), now)
      ensures var p := old(agent.player.value);
              if running && p.pid > 0 then
                agent.player == None && playerMap == old(playerMap) - {p.pid} &&
                cache == old(cache)[p.pid := Cached(p, now)] &&
                gone == old(gone) + if p.pid in old(cache) then {old(cache)[p.pid].player.instance} else {}
              else
                agent.player == Some(p) && playerMap == old(playerMap) && cache == old(cache) && gone == old(gone)
    {
      hide Numbers, AgentViews, Known;
      AgentAt(agent);
      if !running {
        return;
      }
      KnownFollows(agents, playerMap, agent.player.value.pid, agent);
      var pid := agent.player.value.pid;
      if pid <= 0 {
        return;
      }
      NumbersFollow(playerMap, pid, agent);
      RemovePlayer(pid);
      gone := gone + if pid in cache then {cache[pid].player.instance} else {};
      cache := cache[pid := Cached(agent.player.value, now)];
      agent.player := None;
      AgentChanged(agent);
    }

    /** PlayerAgent::CleanUp. */
    method CleanUp(agent: PlayerAgent, now: int)
      requires Valid() && !crashed && agent.id in agents && agents[agent.id] == agent
      modifies this, agent`player
      ensures Valid() && agents == old(agents) && View() == DoCleanUp(old(View()), agent.id, now)
      ensures agentMap == if running then old(agentMap) - {agent.key} else old(agentMap)
      ensures match old(agent.player)
              case None =>
                agent.player == None && playerMap == old(playerMap) && cache == old(cache) && gone == old(gone)
              case Some(p) =>
                if !old(agent.cachable) then
                  agent.player == None && cache == old(cache) && gone == old(gone) + {p.instance} &&
                  playerMap == (if running then old(playerMap) - {p.pid} else old(playerMap))
                else if running && p.pid > 0 then
                  agent.player == None && cache == old(cache)[p.pid := Cached(p, now)] &&
                  playerMap == old(playerMap) - {p.pid}
                else
                  agent.player == Some(p) && cache == old(cache) && gone == old(gone) && playerMap == old(playerMap)
    {
      hide Reachable, Numbers, AgentViews, Recycled, Released, Linked;
      Then(guards, View(), Action.CleanUp(agent.id, now));
      AgentAt(agent);
      if agent.player.Some? {
        if agent.cachable {
          RecyclePlayer(agent, now);
        } else {
          ReleasePlayer(agent);
        }
      }
      Forget(agent);
    }

    method Forget(agent: PlayerAgent)
      requires Linked() && agent.id in agents && agents[agent.id] == agent
      modifies this`agentMap
      ensures Linked() && View() == GatewaySteps.RemoveAgent(old(View()), agent.key)
      ensures agentMap == if running then old(agentMap) - {agent.key} else old(agentMap)
    {
      hide Numbers, AgentViews, Known, Numbered;
      NumbersFollow(agentMap, agent.key, agent);
      KnownFollows(agents, agentMap, agent.key, agent);
      RemoveAgent(agent.key);
    }

    method ReleasePlayer(agent: PlayerAgent)
      requires Linked() && agent.id in agents && agents[agent.id] == agent && agent.player.Some?
      modifies this`playerMap, this`gone, agent`player
      ensures Linked() && View() == Released(old(View()), agent.id, old(agent.player.value))
      ensures var p := old(agent.player.value);
              agent.player == None && gone == old(gone) + {p.instance} &&
              playerMap == if running then old(playerMap) - {p.pid} else old(playerMap)
    {
      hide Numbers, AgentViews;
      AgentAt(agent);
      NumbersFollow(playerMap, agent.player.value.pid, agent);
      RemovePlayer(agent.player.value.pid);
      gone := gone + {agent.player.value.instance};
      agent.player := None;
      AgentChanged(agent);
    }

    method EraseExpired(point: int, keep: int)
      modifies this`cache
      ensures cache == Unexpired(old(cache), point, keep)
    {
      var ahead := cache.Keys;
      while ahead != {}
        invariant ahead <= cache.Keys <= old(cache.Keys)
        invariant forall pid | pid in cache :: cache[pid] == old(cache)[pid]
        invariant forall pid | pid in old(cache) && pid !in ahead ::
                    pid in cache <==> point - old(cache)[pid].at <= keep
        decreases |ahead|
      {
        var pid := Pick(ahead);
        ahead := ahead - {pid};
        if point - cache[pid].at > keep {
          cache := cache - {pid};
        }
      }
      ghost var rest := Unexpired(old(cache), point, keep);
      assert forall pid :: pid in cache <==> pid in rest;
      assert forall pid | pid in cache :: cache[pid] == rest[pid];
    }

    /** Erases entries, no matter which, down to the limit. */
    method EraseOverflow(maxSize: int)
      modifies this`cache
      ensures Trims(old(cache), maxSize, cache)
    {
      if maxSize >= 0 && |cache| > maxSize {
        var del := |cache| - maxSize;
        while del > 0
          invariant 0 <= del == |cache| - maxSize && cache.Keys <= old(cache.Keys)
          invariant forall pid | pid in cache :: cache[pid] == old(cache)[pid]
        {
          assert cache.Keys != {};
          var pid := Pick(cache.Keys);
          cache := cache - {pid};
          assert cache.Keys + {pid} <= old(cache.Keys);
          del := del - 1;
        }
      }
    }

    /** One pass of the cache collection, scheduled at `point`. */
    method CollectCachedPlayer(point: int, keep: int, maxSize: int)
      requires Valid() && !crashed && running
      modifies this`cache, this`gone
      ensures Valid() && Purges(old(cache), point, keep, maxSize, cache)
      ensures var young := set pid | pid in old(cache) && point - old(cache)[pid].at <= keep;
              cache.Keys <= young && |cache| == if 0 <= maxSize < |young| then maxSize else |young|
      ensures forall pid | pid in cache :: pid in old(cache) && cache[pid] == old(cache)[pid]
      ensures View() == DoCollect(old(View()), old(cache.Keys) - cache.Keys)
    {
      hide Reachable, Numbers, AgentViews, Linked, Purges, Trims, Unexpired, InstancesOf;
      EraseExpired(point, keep);
      EraseOverflow(maxSize);
      PurgeOf(old(cache), point, keep, maxSize, cache);
      PurgeMeets(old(cache), point, keep, maxSize, cache);
      PurgeDrops(old(cache), point, keep, maxSize, cache);
      NoteDropped(old(View()));
    }

    /** The history records what a pass has dropped. */
    ghost method NoteDropped(start: State)
      requires Linked() && Reachable(guards, start) && !start.crashed && start.running
      requires View() == start.(cache := cache)
      requires cache.Keys <= start.cache.Keys && cache == start.cache - (start.cache.Keys - cache.Keys)
      modifies this`gone
      ensures Valid() && View() == DoCollect(start, start.cache.Keys - cache.Keys)
    {
      hide Reachable, Numbers, AgentViews, Known, Numbered, InstancesOf;
      var dropped := start.cache.Keys - cache.Keys;
      CollectIsStep(guards, start, dropped);
      gone := gone + InstancesOf(start.cache, dropped);
      assert View() == DoCollect(start, dropped);
    }

    method Stop()
      requires Valid() && !crashed
      modifies this`running
      ensures Valid() && View() == old(View()).(running := false)
    {
      hide Reachable, Numbers, AgentViews;
      Then(guards, View(), Action.Stop);
      if !running {
        return;
      }
      running := false;
    }

    // -------------------------------------------------------------------------------------------
    // Lookups

    method FindPlayer(pid: int) returns (agent: PlayerAgent?)
      ensures agent == if running && pid in playerMap then playerMap[pid] else null
    {
      if !running {
        return null;
      }
      agent := if pid !in playerMap then null else playerMap[pid];
    }

    /** The agents of the listed ids that are logged in, in the order of the list and as often. */
    method GetPlayerList(list: seq<int>) returns (result: seq<PlayerAgent>)
      ensures result == if running then Listed(playerMap, list) else []
    {
      result := [];
      if !running {
        return;
      }
      for i := 0 to |list|
        invariant result == Listed(playerMap, list[..i])
      {
        assert list[..i + 1][..i] == list[..i];
        if list[i] in playerMap {
          result := result + [playerMap[list[i]]];
        }
      }
      assert list[..|list|] == list;
    }
  }

  function Listed(playerMap: map<int, PlayerAgent>, list: seq<int>): seq<PlayerAgent> {
    if list == [] then []
    else
      var pid := list[|list| - 1];
      Listed(playerMap, list[..|list| - 1]) + if pid in playerMap then [playerMap[pid]] else []
  }

  /** A list is served entry by entry: the agent logged in under the id, or nobody. */
  lemma {:induction false} ListedJoins(playerMap: map<int, PlayerAgent>, xs: seq<int>, ys: seq<int>)
    ensures Listed(playerMap, xs + ys) == Listed(playerMap, xs) + Listed(playerMap, ys)
    ensures |ys| == 1 ==> Listed(playerMap, ys) == if ys[0] in playerMap then [playerMap[ys[0]]] else []
  {
    hide Listed;
    ListedStep(playerMap, ys);
    if ys == [] {
      assert xs + ys == xs;
    } else {
      var last := |ys| - 1;
      ListedJoins(playerMap, xs, ys[..last]);
      ListedStep(playerMap, ys[..last]);
      ListedStep(playerMap, xs + ys);
      assert (xs + ys)[..|xs + ys| - 1] == xs + ys[..last];
    }
  }

  lemma ListedStep(playerMap: map<int, PlayerAgent>, list: seq<int>)
    ensures list == [] ==> Listed(playerMap, list) == []
    ensures list != [] ==>
              var pid := list[|list| - 1];
              Listed(playerMap, list) ==
              Listed(playerMap, list[..|list| - 1]) + if pid in playerMap then [playerMap[pid]] else []
  {
  }
}
