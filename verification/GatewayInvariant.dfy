/** What every session step keeps when the two guards are read as meant. */
module GatewayInvariant {
  import opened Wrappers
  import opened GatewaySteps

  /** Where an instance is.  `Carried` is inside a login only. */
  datatype Place = Held(a: AgentId) | InCache(pid: int) | Carried | Dead

  type Places = map<nat, Place>

  /** Agents that are not logged in are found under their own key and hold no player. */
  ghost predicate WaitingInv(agents: map<AgentId, Agent>, agentMap: map<Key, AgentId>) {
    forall k | k in agentMap ::
      agentMap[k] in agents && agents[agentMap[k]].key == k && agents[agentMap[k]].player.None?
  }

  /** Logged in agents are not waiting, and each is named under one id. */
  ghost predicate NamedInv(agents: map<AgentId, Agent>, agentMap: map<Key, AgentId>, playerMap: map<int, AgentId>) {
    (forall pid | pid in playerMap ::
       playerMap[pid] in agents && forall k | k in agentMap :: agentMap[k] != playerMap[pid]) &&
    forall pid, qid | pid in playerMap && qid in playerMap && playerMap[pid] == playerMap[qid] :: pid == qid
  }

  /** The agent that holds a player is the one the player map names. */
  ghost predicate HeldInv(agents: map<AgentId, Agent>, playerMap: map<int, AgentId>) {
    forall a | a in agents && agents[a].player.Some? ::
      agents[a].player.value.pid in playerMap && playerMap[agents[a].player.value.pid] == a
  }

  ghost predicate CacheInv(cache: map<int, Cached>, playerMap: map<int, AgentId>) {
    forall pid | pid in cache :: pid > 0 && cache[pid].player.pid == pid && pid !in playerMap
  }

  /** Each instance ever created is in exactly one place. */
  ghost predicate PlaceInv(
    agents: map<AgentId, Agent>, cache: map<int, Cached>, created: nat, dead: set<nat>, w: Places) {
    (forall i :: i in w <==> 0 <= i < created) &&
    (forall i | i in dead :: i in w && w[i] == Dead) &&
    (forall i | i in w && w[i] == Dead :: i in dead) &&
    (forall a | a in agents && agents[a].player.Some? ::
       agents[a].player.value.instance in w && w[agents[a].player.value.instance] == Held(a)) &&
    (forall i | i in w && w[i].Held? ::
       w[i].a in agents && agents[w[i].a].player.Some? && agents[w[i].a].player.value.instance == i) &&
    (forall pid | pid in cache ::
       cache[pid].player.instance in w && w[cache[pid].player.instance] == InCache(pid)) &&
    (forall i | i in w && w[i].InCache? :: w[i].pid in cache && cache[w[i].pid].player.instance == i)
  }

  /** What holds also in the middle of a login. */
  ghost predicate Core(s: State, w: Places) {
    WaitingInv(s.agents, s.agentMap) && NamedInv(s.agents, s.agentMap, s.playerMap) && HeldInv(s.agents, s.playerMap) &&
    CacheInv(s.cache, s.playerMap) && PlaceInv(s.agents, s.cache, s.created, s.lost + s.gone, w) && s.lost !! s.gone
  }

  ghost predicate Settled(w: Places) {
    forall i | i in w :: w[i] != Carried
  }

  ghost predicate Inv(s: State, w: Places) {
    Core(s, w) && Settled(w)
  }

  // ---------------------------------------------------------------------------------------------
  // Moving one instance

  lemma Unhand(
    agents: map<AgentId, Agent>, cache: map<int, Cached>, created: nat, dead: set<nat>, w: Places, a: AgentId,
    agent: Agent)
    requires PlaceInv(agents, cache, created, dead, w) && a in agents && agents[a].player.Some? && agent.player.None?
    ensures PlaceInv(agents[a := agent], cache, created, dead, w[agents[a].player.value.instance := Carried])
  {
  }

  lemma Hand(
    agents: map<AgentId, Agent>, cache: map<int, Cached>, created: nat, dead: set<nat>, w: Places, a: AgentId,
    agent: Agent)
    requires PlaceInv(agents, cache, created, dead, w) && a in agents && agents[a].player.None? && agent.player.Some?
    requires agent.player.value.instance in w && w[agent.player.value.instance] == Carried
    ensures PlaceInv(agents[a := agent], cache, created, dead, w[agent.player.value.instance := Held(a)])
  {
  }

  lemma Uncache(agents: map<AgentId, Agent>, cache: map<int, Cached>, created: nat, dead: set<nat>, w: Places, pid: int)
    requires PlaceInv(agents, cache, created, dead, w) && pid in cache
    ensures PlaceInv(agents, cache - {pid}, created, dead, w[cache[pid].player.instance := Carried])
  {
  }

  lemma Stow(
    agents: map<AgentId, Agent>, cache: map<int, Cached>, created: nat, dead: set<nat>, w: Places, pid: int, c: Cached)
    requires PlaceInv(agents, cache, created, dead, w) && pid !in cache
    requires c.player.instance in w && w[c.player.instance] == Carried
    ensures PlaceInv(agents, cache[pid := c], created, dead, w[c.player.instance := InCache(pid)])
  {
  }

  lemma Create(agents: map<AgentId, Agent>, cache: map<int, Cached>, created: nat, dead: set<nat>, w: Places)
    requires PlaceInv(agents, cache, created, dead, w)
    ensures created !in w && PlaceInv(agents, cache, created + 1, dead, w[created := Carried])
  {
  }

  lemma Bury(agents: map<AgentId, Agent>, cache: map<int, Cached>, created: nat, dead: set<nat>, w: Places, i: nat)
    requires PlaceInv(agents, cache, created, dead, w) && i in w && w[i] == Carried
    ensures PlaceInv(agents, cache, created, dead + {i}, w[i := Dead])
  {
  }

  /** Flags of an agent do not matter. */
  lemma Reflag(
    agents: map<AgentId, Agent>, cache: map<int, Cached>, created: nat, dead: set<nat>, w: Places, a: AgentId,
    agent: Agent)
    requires PlaceInv(agents, cache, created, dead, w) && a in agents && agent.player == agents[a].player
    ensures PlaceInv(agents[a := agent], cache, created, dead, w)
  {
  }

  lemma Arrive(
    agents: map<AgentId, Agent>, cache: map<int, Cached>, created: nat, dead: set<nat>, w: Places, a: AgentId,
    agent: Agent)
    requires PlaceInv(agents, cache, created, dead, w) && a !in agents && agent.player.None?
    ensures PlaceInv(agents[a := agent], cache, created, dead, w)
  {
  }

  lemma Purge(
    agents: map<AgentId, Agent>, cache: map<int, Cached>, created: nat, dead: set<nat>, w: Places,
      dropped: set<int>) returns (w': Places)
    requires PlaceInv(agents, cache, created, dead, w) && dropped <= cache.Keys && Settled(w)
    ensures Settled(w')
    ensures PlaceInv(agents, cache - dropped, created, dead + InstancesOf(cache, dropped), w')
    ensures forall pid | pid in dropped :: cache[pid].player.instance !in dead
  {
    w' := map i | i in w :: if w[i].InCache? && w[i].pid in dropped then Dead else w[i];
  }

  // ---------------------------------------------------------------------------------------------
  // Steps

  lemma ConnectKeeps(s: State, w: Places, a: AgentId, key: Key)
    requires Inv(s, w) && Enabled(s, Connect(a, key))
    ensures Inv(DoConnect(s, a, key), w)
  {
    hide Settled;
    var agent := Agent(key, None, true, true);
    Arrive(s.agents, s.cache, s.created, s.lost + s.gone, w, a, agent);
    hide PlaceInv;
  }

  lemma FlagsKeep(s: State, w: Places, a: AgentId, agent: Agent)
    requires Core(s, w) && a in s.agents && agent.player == s.agents[a].player && agent.key == s.agents[a].key
    ensures Core(s.(agents := s.agents[a := agent]), w)
  {
    Reflag(s.agents, s.cache, s.created, s.lost + s.gone, w, a, agent);
    hide PlaceInv;
  }

  lemma CollectKeeps(s: State, w: Places, dropped: set<int>) returns (w': Places)
    requires Inv(s, w) && dropped <= s.cache.Keys
    ensures Inv(DoCollect(s, dropped), w')
  {
    w' := Purge(s.agents, s.cache, s.created, s.lost + s.gone, w, dropped);
    hide PlaceInv, Settled;
    var more := InstancesOf(s.cache, dropped);
    assert s.lost + s.gone + more == s.lost + (s.gone + more);
  }

  /** Taking a player from its agent and from the player map. */
  lemma TakingKeeps(s: State, w: Places, a: AgentId, agent: Agent) returns (w': Places)
    requires Core(s, w) && Settled(w) && a in s.agents && s.agents[a].player.Some?
    requires agent.player.None? && agent.key == s.agents[a].key
    ensures var p := s.agents[a].player.value;
            var s' := s.(agents := s.agents[a := agent], playerMap := s.playerMap - {p.pid});
            p.pid in s.playerMap && s.playerMap[p.pid] == a && p.instance in w && w == w[p.instance := Held(a)] &&
            Core(s', w') && w' == w[p.instance := Carried] && p.pid !in s.cache
  {
    var p := s.agents[a].player.value;
    w' := w[p.instance := Carried];
    HolderIsPlaced(s.agents, s.cache, s.created, s.lost + s.gone, w, a);
    Unhand(s.agents, s.cache, s.created, s.lost + s.gone, w, a, agent);
    TakingNames(s.agents, s.agentMap, s.playerMap, s.cache, a, agent);
    hide PlaceInv, Settled, WaitingInv, NamedInv, HeldInv, CacheInv;
  }

  lemma HolderIsPlaced(
    agents: map<AgentId, Agent>, cache: map<int, Cached>, created: nat, dead: set<nat>, w: Places, a: AgentId)
    requires PlaceInv(agents, cache, created, dead, w) && a in agents && agents[a].player.Some?
    ensures var i := agents[a].player.value.instance;
            i in w && w[i] == Held(a) && w == w[i := Held(a)]
  {
  }

  lemma TakingNames(
    agents: map<AgentId, Agent>, agentMap: map<Key, AgentId>, playerMap: map<int, AgentId>, cache: map<int, Cached>,
    a: AgentId, agent: Agent)
    requires WaitingInv(agents, agentMap) && NamedInv(agents, agentMap, playerMap) && HeldInv(agents, playerMap)
    requires CacheInv(cache, playerMap) && a in agents && agents[a].player.Some?
    requires agent.player.None? && agent.key == agents[a].key
    ensures var pid := agents[a].player.value.pid;
            pid in playerMap && playerMap[pid] == a && pid !in cache &&
            WaitingInv(agents[a := agent], agentMap) && NamedInv(agents[a := agent], agentMap, playerMap - {pid}) &&
            HeldInv(agents[a := agent], playerMap - {pid}) && CacheInv(cache, playerMap - {pid})
  {
  }

  lemma BuryGone(s: State, w: Places, i: nat)
    requires Core(s, w) && i in w && w[i] == Carried
    ensures Core(s.(gone := s.gone + {i}), w[i := Dead])
  {
    Bury(s.agents, s.cache, s.created, s.lost + s.gone, w, i);
    assert i !in s.lost + s.gone;
    hide PlaceInv;
    assert s.lost + s.gone + {i} == s.lost + (s.gone + {i});
  }

  lemma BuryLost(s: State, w: Places, i: nat)
    requires Core(s, w) && i in w && w[i] == Carried
    ensures Core(s.(lost := s.lost + {i}), w[i := Dead])
  {
    Bury(s.agents, s.cache, s.created, s.lost + s.gone, w, i);
    assert i !in s.lost + s.gone;
    hide PlaceInv;
    assert s.lost + s.gone + {i} == s.lost + {i} + s.gone;
  }

  lemma RemoveAgentKeeps(s: State, w: Places, key: Key)
    requires Core(s, w)
    ensures Core(RemoveAgent(s, key), w)
  {
    hide PlaceInv;
  }

  /** A carried player goes to the cache. */
  lemma StowKeeps(s: State, w: Places, p: Player, now: int)
    requires Core(s, w) && p.pid !in s.cache && p.pid !in s.playerMap && p.pid > 0
    requires p.instance in w && w[p.instance] == Carried
    ensures Core(s.(cache := s.cache[p.pid := Cached(p, now)]), w[p.instance := InCache(p.pid)])
  {
    Stow(s.agents, s.cache, s.created, s.lost + s.gone, w, p.pid, Cached(p, now));
    hide PlaceInv;
  }

  lemma RecycledKeeps(s: State, w: Places, a: AgentId, now: int) returns (w': Places)
    requires Inv(s, w) && a in s.agents && s.agents[a].player.Some?
    ensures Inv(Recycled(s, a, s.agents[a].player.value, now), w')
  {
    hide PlaceInv, WaitingInv, NamedInv, HeldInv, CacheInv;
    var p := s.agents[a].player.value;
    if !s.running || p.pid <= 0 {
      w' := w;
    } else {
      var agent := s.agents[a].(player := None);
      var w1 := TakingKeeps(s, w, a, agent);
      var s1 := s.(agents := s.agents[a := agent], playerMap := s.playerMap - {p.pid});
      StowKeeps(s1, w1, p, now);
      w' := w1[p.instance := InCache(p.pid)];
      assert s.gone + {} == s.gone;
    }
  }

  lemma ReleasedKeeps(s: State, w: Places, a: AgentId) returns (w': Places)
    requires Inv(s, w) && a in s.agents && s.agents[a].player.Some?
    ensures Inv(Released(s, a, s.agents[a].player.value), w')
  {
    hide PlaceInv, WaitingInv, NamedInv, HeldInv, CacheInv;
    var p := s.agents[a].player.value;
    var agent := s.agents[a].(player := None);
    var w1 := TakingKeeps(s, w, a, agent);
    w' := w1[p.instance := Dead];
    var s1 := s.(agents := s.agents[a := agent], playerMap := s.playerMap - {p.pid});
    BuryGone(s1, w1, p.instance);
    if !s.running {
      NameStays(Released(s, a, p), w', s, p.pid, a);
    }
  }

  /** A stopped gateway keeps the name of an agent whose player is gone. */
  lemma NameStays(z: State, w: Places, s: State, pid: int, a: AgentId)
    requires Core(z.(playerMap := s.playerMap - {pid}), w) && z.playerMap == s.playerMap && z.agentMap == s.agentMap
    requires NamedInv(s.agents, s.agentMap, s.playerMap) && CacheInv(z.cache, s.playerMap)
    requires a in s.agents && a in z.agents && z.agents == s.agents[a := z.agents[a]]
    requires pid in s.playerMap && s.playerMap[pid] == a
    ensures Core(z, w)
  {
    hide PlaceInv;
  }

  lemma CleanUpKeeps(s: State, w: Places, a: AgentId, now: int) returns (w': Places)
    requires Inv(s, w) && a in s.agents
    ensures Inv(DoCleanUp(s, a, now), w')
  {
    hide PlaceInv, Settled, WaitingInv, NamedInv, HeldInv, CacheInv, Recycled, Released, RemoveAgent;
    var agent := s.agents[a];
    if agent.player.None? {
      w' := w;
      RemoveAgentKeeps(s, w, agent.key);
    } else if agent.cachable {
      w' := RecycledKeeps(s, w, a, now);
      RemoveAgentKeeps(Recycled(s, a, agent.player.value, now), w', agent.key);
    } else {
      w' := ReleasedKeeps(s, w, a);
      RemoveAgentKeeps(Released(s, a, agent.player.value), w', agent.key);
    }
  }

  // ---------------------------------------------------------------------------------------------
  // Login

  /** Between the displacement of the old session and the choice of the instance. */
  ghost predicate Entering(s: State, w: Places, pid: int, player: Option<Player>, existed: Option<AgentId>) {
    Core(s, w) && pid !in s.playerMap &&
    (player.Some? ==> pid !in s.cache && player.value.pid == pid && player.value.instance in w &&
                      w[player.value.instance] == Carried) &&
    (forall i | i in w && w[i] == Carried :: i in Instance(player)) &&
    (existed.Some? ==> existed.value in s.agents && s.agents[existed.value].player.None? &&
                       forall k | k in s.agentMap :: s.agentMap[k] != existed.value)
  }

  /** The waiting agent becomes the one the player map names; the cache forgets the id. */
  lemma RenamingKeeps(s: State, key: Key, pid: int)
    requires WaitingInv(s.agents, s.agentMap) && NamedInv(s.agents, s.agentMap, s.playerMap)
    requires HeldInv(s.agents, s.playerMap) && CacheInv(s.cache, s.playerMap)
    requires key in s.agentMap && pid !in s.playerMap
    ensures var playerMap := s.playerMap[pid := s.agentMap[key]];
            WaitingInv(s.agents, s.agentMap - {key}) && NamedInv(s.agents, s.agentMap - {key}, playerMap) &&
            HeldInv(s.agents, playerMap) && CacheInv(s.cache - {pid}, playerMap)
  {
  }

  /** The instance a login uses is carried, whichever it is. */
  lemma ChoosingKeeps(s: State, w: Places, pid: int, player: Option<Player>) returns (w': Places)
    requires PlaceInv(s.agents, s.cache, s.created, s.lost + s.gone, w) && CacheInv(s.cache, s.playerMap)
    requires player.Some? ==>
               pid !in s.cache && player.value.pid == pid && player.value.instance in w &&
               w[player.value.instance] == Carried
    requires forall i | i in w && w[i] == Carried :: i in Instance(player)
    ensures var q := Chosen(s, pid, player);
            var made := if player.None? && pid !in s.cache then 1 else 0;
            q.pid == pid && q.instance in w' && w'[q.instance] == Carried &&
            (forall i | i in w' && w'[i] == Carried :: i == q.instance) &&
            PlaceInv(s.agents, s.cache - {pid}, s.created + made, s.lost + s.gone, w')
  {
    if player.Some? {
      w' := w;
      assert s.cache - {pid} == s.cache;
    } else if pid in s.cache {
      Uncache(s.agents, s.cache, s.created, s.lost + s.gone, w, pid);
      w' := w[s.cache[pid].player.instance := Carried];
    } else {
      Create(s.agents, s.cache, s.created, s.lost + s.gone, w);
      w' := w[s.created := Carried];
      assert s.cache - {pid} == s.cache;
    }
    hide PlaceInv;
  }

  /** A carried player goes to the agent that the player map names. */
  lemma HandKeeps(s: State, w: Places, a: AgentId, q: Player)
    requires Core(s, w) && a in s.agents && s.agents[a].player.None? &&
             (forall k | k in s.agentMap :: s.agentMap[k] != a)
    requires q.pid in s.playerMap && s.playerMap[q.pid] == a && q.instance in w && w[q.instance] == Carried
    ensures Core(s.(agents := s.agents[a := s.agents[a].(player := Some(q))]), w[q.instance := Held(a)])
  {
    Hand(s.agents, s.cache, s.created, s.lost + s.gone, w, a, s.agents[a].(player := Some(q)));
    hide PlaceInv;
  }

  lemma SetUpKeeps(s: State, w: Places, a: AgentId, q: Player, saved: bool) returns (w': Places)
    requires Core(s, w) && a in s.agents && s.agents[a].player.None? &&
             (forall k | k in s.agentMap :: s.agentMap[k] != a)
    requires q.pid in s.playerMap && s.playerMap[q.pid] == a
    requires q.instance in w && w[q.instance] == Carried && forall i | i in w && w[i] == Carried :: i == q.instance
    ensures Inv(SetUpPlayer(AsMeant, s, a, q, saved), w')
  {
    hide Core;
    if !s.agents[a].open {
      w' := w[q.instance := Dead];
      BuryGone(s, w, q.instance);
      BuryLost(s, w, q.instance);
    } else {
      w' := w[q.instance := Held(a)];
      HandKeeps(s, w, a, q);
      assert s.gone + {} == s.gone;
    }
  }

  lemma EnterKeeps(
    s: State, w: Places, key: Key, pid: int, player: Option<Player>, existed: Option<AgentId>, closes: bool)
      returns (w': Places)
    requires Entering(s, w, pid, player, existed)
    ensures Inv(Enter(AsMeant, s, key, pid, player, existed, closes), w')
  {
    hide PlaceInv, WaitingInv, NamedInv, HeldInv, CacheInv, SetUpPlayer;
    if key in s.agentMap {
      w' := AdmitKeeps(s, w, key, pid, player, existed, closes);
    } else if player.None? {
      w' := w;
      assert s.lost + {} == s.lost;
    } else {
      w' := w[player.value.instance := Dead];
      BuryLost(s, w, player.value.instance);
    }
  }

  lemma WaitingSays(s: State, key: Key)
    requires WaitingInv(s.agents, s.agentMap) && key in s.agentMap
    ensures s.agentMap[key] in s.agents && s.agents[s.agentMap[key]].player.None?
    ensures forall k | k in s.agentMap - {key} :: s.agentMap[k] != s.agentMap[key]
  {
  }

  lemma AdmitKeeps(
    s: State, w: Places, key: Key, pid: int, player: Option<Player>, existed: Option<AgentId>, closes: bool)
      returns (w': Places)
    requires Entering(s, w, pid, player, existed) && key in s.agentMap
    ensures Inv(Enter(AsMeant, s, key, pid, player, existed, closes), w')
  {
    hide PlaceInv, WaitingInv, NamedInv, HeldInv, CacheInv, SetUpPlayer, Chosen, Inv;
    var a := s.agentMap[key];
    WaitingSays(s, key);
    RenamingKeeps(s, key, pid);
    var w1 := ChoosingKeeps(s, w, pid, player);
    var q := Chosen(s, pid, player);
    var made := if player.None? && pid !in s.cache then 1 else 0;
    assert s.gone + {} == s.gone;
    var s2 := s.(agentMap := s.agentMap - {key}, playerMap := s.playerMap[pid := a], cache := s.cache - {pid},
                 created := s.created + made);
    assert Core(s2, w1);
    var s3 := if existed.Some? then Notified(s2, existed.value, closes) else s2;
    if existed.Some? {
      var agent := s2.agents[existed.value];
      FlagsKeep(s2, w1, existed.value, agent.(cachable := false, open := agent.open && !closes));
    }
    w' := SetUpKeeps(s3, w1, a, q, made == 0);
  }

  lemma LoginKeeps(s: State, w: Places, key: Key, pid: int, closes: bool) returns (w': Places)
    requires Inv(s, w)
    ensures Inv(DoLogin(AsMeant, s, key, pid, closes), w')
  {
    hide PlaceInv, Enter;
    w' := w;
    if s.running && pid !in s.playerMap {
      w' := EnterKeeps(s, w, key, pid, None, None, closes);
    } else if s.running {
      var ex := s.playerMap[pid];
      var agent := s.agents[ex];
      if agent.key != key && agent.player.Some? {
        assert agent.player.value.pid == pid;
        assert s.cache.Keys !! {pid};
        var w1 := TakingKeeps(s, w, ex, agent.(player := None));
        var s1 := s.(agents := s.agents[ex := agent.(player := None)], playerMap := s.playerMap - {pid});
        w' := EnterKeeps(s1, w1, key, pid, agent.player, Some(ex), closes);
      }
    }
  }
}
