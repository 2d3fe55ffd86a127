/** What holds in every run of logins, clean-ups and collections. */
module GatewayTheorems {
  import opened Wrappers
  import opened GatewaySteps
  import opened GatewayInvariant

  lemma StepKeeps(s: State, w: Places, x: Action) returns (w': Places)
    requires Inv(s, w) && Enabled(s, x)
    ensures Inv(Next(AsMeant, s, x), w')
  {
    hide PlaceInv, Core, Settled, DoConnect, DoLogin, DoCleanUp, DoCollect;
    match x
    case Connect(a, key) => w' := w; ConnectKeeps(s, w, a, key);
    case Login(key, pid, closes) => w' := LoginKeeps(s, w, key, pid, closes);
    case Logout(a) => w' := w; FlagsKeep(s, w, a, s.agents[a].(cachable := false));
    case Close(a) => w' := w; FlagsKeep(s, w, a, s.agents[a].(open := false));
    case CleanUp(a, now) => w' := CleanUpKeeps(s, w, a, now);
    case Collect(dropped) => w' := CollectKeeps(s, w, dropped);
    case Stop => w' := w; StopKeeps(s, w);
  }

  lemma StopKeeps(s: State, w: Places)
    requires Core(s, w)
    ensures Core(s.(running := false), w)
  {
    hide PlaceInv;
  }

  lemma {:induction false} RunKeeps(s: State, w: Places, run: seq<Action>) returns (w': Places)
    requires Inv(s, w) && IsRun(AsMeant, s, run)
    ensures Inv(After(AsMeant, s, run), w')
    decreases |run|
  {
    hide Inv, Enabled, Next;
    w' := w;
    if run != [] {
      var w1 := StepKeeps(s, w, run[0]);
      w' := RunKeeps(Next(AsMeant, s, run[0]), w1, run[1..]);
    }
  }

  ghost predicate Reachable(g: Guards, s: State) {
    exists run :: IsRun(g, Empty(), run) && After(g, Empty(), run) == s
  }

  lemma ReachableKeeps(s: State) returns (w: Places)
    requires Reachable(AsMeant, s)
    ensures Inv(s, w)
  {
    var run :| IsRun(AsMeant, Empty(), run) && After(AsMeant, Empty(), run) == s;
    assert Inv(Empty(), map[]);
    hide Inv, IsRun, After;
    w := RunKeeps(Empty(), map[], run);
  }

  ghost predicate Holds(s: State, a: AgentId, p: Player) {
    a in s.agents && s.agents[a].player == Some(p)
  }

  ghost predicate IsCached(s: State, pid: int, p: Player) {
    pid in s.cache && s.cache[pid].player == p
  }

  /**
   At most one instance exists per player id: the agent that holds it is the one the player map
   names, and then nothing is cached under the id.  No assumption on keys, ids or sockets.
   */
  lemma OneInstancePerId(s: State, pid: int)
    requires Reachable(AsMeant, s)
    ensures forall a, b, p, q | Holds(s, a, p) && Holds(s, b, q) && p.pid == pid && q.pid == pid :: a == b && p == q
    ensures forall a, p | Holds(s, a, p) && p.pid == pid ::
              pid in s.playerMap && s.playerMap[pid] == a && pid !in s.cache
    ensures pid in s.cache ==> s.cache[pid].player.pid == pid && pid !in s.playerMap
    ensures forall other, p | IsCached(s, other, p) && p.pid == pid :: other == pid
  {
    hide Reachable;
    var w := ReachableKeeps(s);
    hide PlaceInv;
  }

  /** Every instance ever created is held by one agent, or cached under one id, or destroyed. */
  lemma InstancesAreConserved(s: State, i: nat)
    requires Reachable(AsMeant, s)
    ensures var held := exists a, p :: Holds(s, a, p) && p.instance == i;
            var cached := exists pid, p :: IsCached(s, pid, p) && p.instance == i;
            var destroyed := i in s.lost || i in s.gone;
            (i < s.created <==> held || cached || destroyed) && !(held && cached) && !(held && destroyed) &&
            !(cached && destroyed)
    ensures forall a, b, p, q | Holds(s, a, p) && Holds(s, b, q) && p.instance == i && q.instance == i :: a == b
    ensures forall pid, qid, p, q | IsCached(s, pid, p) && IsCached(s, qid, q) && p.instance == i && q.instance == i ::
              pid == qid
  {
    hide Reachable;
    var w := ReachableKeeps(s);
    hide WaitingInv, NamedInv, HeldInv, CacheInv;
    if i in w && w[i].Held? {
      assert Holds(s, w[i].a, s.agents[w[i].a].player.value);
    }
    if i in w && w[i].InCache? {
      assert IsCached(s, w[i].pid, s.cache[w[i].pid].player);
    }
  }

  /**
   A clean-up leaves every other agent alone and every name of another agent in the player map; the
   session that took a player over keeps its name when the one it displaced is cleaned up.  Of the
   waiting agents the one under the cleaned agent's key is forgotten.
   */
  lemma CleanUpRemovesOnlyItself(s: State, a: AgentId, now: int)
    requires Reachable(AsMeant, s) && Enabled(s, CleanUp(a, now))
    ensures var z := Next(AsMeant, s, CleanUp(a, now));
            (forall b | b in s.agents && b != a :: b in z.agents && z.agents[b] == s.agents[b]) &&
            (forall pid | pid in s.playerMap && s.playerMap[pid] != a ::
              pid in z.playerMap && z.playerMap[pid] == s.playerMap[pid]) &&
            (s.agents[a].player.None? ==> z.playerMap == s.playerMap && z.cache == s.cache) &&
            z.agentMap == if s.running then s.agentMap - {s.agents[a].key} else s.agentMap
  {
    hide Reachable;
    var w := ReachableKeeps(s);
    NamedHolder(s, w, a);
    hide Inv, Enabled, Next;
    CleanUpSays(s, a, now);
  }

  lemma NamedHolder(s: State, w: Places, a: AgentId)
    requires Inv(s, w) && a in s.agents
    ensures s.agents[a].player.Some? ==>
              s.agents[a].player.value.pid in s.playerMap && s.playerMap[s.agents[a].player.value.pid] == a
  {
    hide PlaceInv, WaitingInv, NamedInv, CacheInv, Settled;
  }

  lemma CleanUpSays(s: State, a: AgentId, now: int)
    requires Enabled(s, CleanUp(a, now)) && a in s.agents
    requires s.agents[a].player.Some? ==>
               s.agents[a].player.value.pid in s.playerMap && s.playerMap[s.agents[a].player.value.pid] == a
    ensures var z := Next(AsMeant, s, CleanUp(a, now));
            (forall b | b in s.agents && b != a :: b in z.agents && z.agents[b] == s.agents[b]) &&
            (forall pid | pid in s.playerMap && s.playerMap[pid] != a ::
               pid in z.playerMap && z.playerMap[pid] == s.playerMap[pid]) &&
            (s.agents[a].player.None? ==> z.playerMap == s.playerMap && z.cache == s.cache) &&
            z.agentMap == if s.running then s.agentMap - {s.agents[a].key} else s.agentMap
  {
  }

  /** A cached player never replaces another one. */
  lemma CachingNeverOverwrites(s: State, a: AgentId, now: int)
    requires Reachable(AsMeant, s) && Enabled(s, CleanUp(a, now)) && s.agents[a].player.Some?
    ensures var p := s.agents[a].player.value;
            var z := Next(AsMeant, s, CleanUp(a, now));
            s.running && s.agents[a].cachable && p.pid > 0 ==>
              p.pid !in s.cache && z.cache == s.cache[p.pid := Cached(p, now)] && z.gone == s.gone &&
              z.agents[a].player == None
  {
    hide Reachable;
    var w := ReachableKeeps(s);
    hide PlaceInv, WaitingInv, NamedInv;
  }

  /**
   What a clean-up does with the player: one that may be cached goes into the cache while the gateway
   runs and its id is positive, and else stays; one that may not is destroyed.
   */
  lemma CleanUpDisposes(s: State, a: AgentId, now: int)
    requires Reachable(AsMeant, s) && Enabled(s, CleanUp(a, now)) && s.agents[a].player.Some?
    ensures var p, agent := s.agents[a].player.value, s.agents[a];
            var z := Next(AsMeant, s, CleanUp(a, now));
            z.created == s.created && z.lost == s.lost && z.running == s.running &&
            if agent.cachable && s.running && p.pid > 0 then
              z.agents == s.agents[a := agent.(player := None)] && z.playerMap == s.playerMap - {p.pid} &&
              z.cache == s.cache[p.pid := Cached(p, now)] && p.pid !in s.cache && z.gone == s.gone
            else if agent.cachable then
              z.agents == s.agents && z.playerMap == s.playerMap && z.cache == s.cache && z.gone == s.gone
            else
              z.agents == s.agents[a := agent.(player := None)] && z.cache == s.cache &&
              z.gone == s.gone + {p.instance} &&
              z.playerMap == if s.running then s.playerMap - {p.pid} else s.playerMap
  {
    CachingNeverOverwrites(s, a, now);
    hide Reachable;
  }

  /** A session that logged out is not cached: cleaning it up saves and destroys its player. */
  lemma LoggedOutIsNotCached(s: State, a: AgentId, now: int)
    requires Reachable(AsMeant, s) && Enabled(s, Logout(a))
    ensures Enabled(Next(AsMeant, s, Logout(a)), CleanUp(a, now))
    ensures var z := Next(AsMeant, Next(AsMeant, s, Logout(a)), CleanUp(a, now));
            z.agents[a].player == None && z.cache == s.cache && z.gone == s.gone + {s.agents[a].player.value.instance}
  {
    hide Reachable;
    Then(AsMeant, s, Logout(a));
    CleanUpDisposes(Next(AsMeant, s, Logout(a)), a, now);
  }

  /** A waiting session whose socket closes gets no player from its login, and its name leads to none. */
  lemma ClosedIsNotSetUp(s: State, key: Key, pid: int, closes: bool)
    requires Reachable(AsMeant, s) && key in s.agentMap && s.running && !s.crashed && pid !in s.playerMap
    ensures Enabled(s, Close(s.agentMap[key]))
    ensures var a, s1 := s.agentMap[key], Next(AsMeant, s, Close(s.agentMap[key]));
            var z := Next(AsMeant, s1, Login(key, pid, closes));
            a in z.agents && z.agents[a].player == None && pid in z.playerMap && z.playerMap[pid] == a
  {
    hide Reachable;
    var w := ReachableKeeps(s);
    WaitsAndNamed(s, w, key, pid);
    hide Inv;
    Then(AsMeant, s, Close(s.agentMap[key]));
    LoginAdmits(Next(AsMeant, s, Close(s.agentMap[key])), key, pid, closes);
  }

  function InstanceFor(s: State, pid: int): nat {
    if pid in s.playerMap && AgentOf(s, s.playerMap[pid]).player.Some?
      then AgentOf(s, s.playerMap[pid]).player.value.instance
    else if pid in s.cache then s.cache[pid].player.instance
    else s.created
  }

  /**
   A login of a waiting agent with an open socket ends with that agent holding the one instance of
   the id: the displaced session's if there is one, else the cached one, else a new one.
   */
  lemma LoginHandsOver(s: State, key: Key, pid: int, closes: bool)
    requires Reachable(AsMeant, s) && Enabled(s, Login(key, pid, closes)) && s.running
    requires key in s.agentMap && AgentOf(s, s.agentMap[key]).open
    requires pid in s.playerMap ==> AgentOf(s, s.playerMap[pid]).key != key && AgentOf(s, s.playerMap[pid]).player.Some?
    ensures var z := Next(AsMeant, s, Login(key, pid, closes));
            var a := s.agentMap[key];
            Holds(z, a, Player(InstanceFor(s, pid), pid)) && pid in z.playerMap && z.playerMap[pid] == a &&
            key !in z.agentMap &&
            pid !in z.cache && z.lost == s.lost && z.gone == s.gone &&
            (pid in s.playerMap ==> s.playerMap[pid] != a && AgentOf(z, s.playerMap[pid]).player == None)
  {
    hide Reachable;
    var w := ReachableKeeps(s);
    hide PlaceInv;
    assert {} + s.gone == s.gone + {} == s.gone;
  }

  /**
   A login that displaces a session leaves that session without a player, not to be cached, and
   disconnected if the handler has no answer for it.  The new session has the player if its socket is
   open, and no third session is touched.
   */
  lemma LoginDisplaces(s: State, key: Key, pid: int, closes: bool)
    requires Reachable(AsMeant, s) && Enabled(s, Login(key, pid, closes)) && s.running
    requires key in s.agentMap && pid in s.playerMap
    requires AgentOf(s, s.playerMap[pid]).key != key && AgentOf(s, s.playerMap[pid]).player.Some?
    ensures var z := Next(AsMeant, s, Login(key, pid, closes));
            var ex, a := s.playerMap[pid], s.agentMap[key];
            ex in s.agents && a in s.agents && ex != a && z.agents.Keys == s.agents.Keys &&
            z.agents[ex].key == s.agents[ex].key && z.agents[ex].player == None && !z.agents[ex].cachable &&
            (z.agents[ex].open <==> s.agents[ex].open && !closes) &&
            z.agents[a] == s.agents[a].(player :=
              if s.agents[a].open then Some(s.agents[ex].player.value.(pid := pid)) else None) &&
            (forall b | b in s.agents && b != ex && b != a :: z.agents[b] == s.agents[b]) &&
            z.playerMap == s.playerMap[pid := a] && z.agentMap == s.agentMap - {key} && z.cache == s.cache &&
            z.created == s.created && z.running
  {
    hide Reachable;
    var w := ReachableKeeps(s);
    WaitsAndNamed(s, w, key, pid);
    hide Inv, Enabled;
    DisplacingChanges(s, key, pid, closes);
  }

  lemma WaitsAndNamed(s: State, w: Places, key: Key, pid: int)
    requires Inv(s, w)
    ensures key in s.agentMap ==> s.agentMap[key] in s.agents && s.agents[s.agentMap[key]].player.None?
    ensures pid in s.playerMap ==> s.playerMap[pid] in s.agents && pid !in s.cache
    ensures key in s.agentMap && pid in s.playerMap ==> s.playerMap[pid] != s.agentMap[key]
  {
    hide PlaceInv, HeldInv, Settled;
  }

  lemma DisplacingChanges(s: State, key: Key, pid: int, closes: bool)
    requires s.running && key in s.agentMap && pid in s.playerMap && pid !in s.cache
    requires s.agentMap[key] in s.agents && s.agents[s.agentMap[key]].player.None?
    requires s.playerMap[pid] in s.agents && s.playerMap[pid] != s.agentMap[key]
    requires s.agents[s.playerMap[pid]].key != key && s.agents[s.playerMap[pid]].player.Some?
    ensures var z := DoLogin(AsMeant, s, key, pid, closes);
            var ex, a := s.playerMap[pid], s.agentMap[key];
            z.agents.Keys == s.agents.Keys &&
            z.agents[ex].key == s.agents[ex].key && z.agents[ex].player == None && !z.agents[ex].cachable &&
            (z.agents[ex].open <==> s.agents[ex].open && !closes) &&
            z.agents[a] == s.agents[a].(player :=
              if s.agents[a].open then Some(s.agents[ex].player.value.(pid := pid)) else None) &&
            (forall b | b in s.agents && b != ex && b != a :: z.agents[b] == s.agents[b]) &&
            z.playerMap == s.playerMap[pid := a] && z.agentMap == s.agentMap - {key} && z.cache == s.cache &&
            z.created == s.created && z.running
  {
    assert s.cache - {pid} == s.cache;
    assert (s.playerMap - {pid})[pid := s.agentMap[key]] == s.playerMap[pid := s.agentMap[key]];
  }

  /**
   A login under an id that nobody is logged in with gives the waiting agent the cached player or a
   new one if its socket is open, and touches no other agent.
   */
  lemma LoginAdmits(s: State, key: Key, pid: int, closes: bool)
    requires Reachable(AsMeant, s) && Enabled(s, Login(key, pid, closes)) && s.running
    requires key in s.agentMap && pid !in s.playerMap
    ensures var z := Next(AsMeant, s, Login(key, pid, closes));
            var a := s.agentMap[key];
            a in s.agents && z.agents == s.agents[a := s.agents[a].(player :=
              if !s.agents[a].open then None
              else if pid in s.cache then Some(s.cache[pid].player) else Some(Player(s.created, pid)))] &&
            z.playerMap == s.playerMap[pid := a] && z.agentMap == s.agentMap - {key} && z.cache == s.cache - {pid} &&
            z.created == s.created + (if pid in s.cache then 0 else 1) && z.running
  {
    hide Reachable;
    var w := ReachableKeeps(s);
    WaitsAndNamed(s, w, key, pid);
    CachedUnderItsId(s, w, pid);
    hide Inv, Enabled;
    assert forall a | a in s.agents :: s.agents[a := s.agents[a]] == s.agents;
  }

  lemma CachedUnderItsId(s: State, w: Places, pid: int)
    requires Inv(s, w)
    ensures pid in s.cache ==> s.cache[pid].player.pid == pid
  {
    hide PlaceInv, HeldInv, WaitingInv, NamedInv, Settled;
  }

  /** Every other login changes at most that the displaced session loses its player and its name. */
  lemma LoginWithoutWaiter(s: State, key: Key, pid: int, closes: bool)
    requires Reachable(AsMeant, s) && Enabled(s, Login(key, pid, closes))
    requires s.running ==> key !in s.agentMap
    ensures var z := Next(AsMeant, s, Login(key, pid, closes));
            if s.running && pid in s.playerMap && AgentOf(s, s.playerMap[pid]).key != key then
              var ex := s.playerMap[pid];
              if AgentOf(s, ex).player.None? then z == s.(crashed := true)
              else z == s.(agents := s.agents[ex := s.agents[ex].(player := None)], playerMap := s.playerMap - {pid},
                           lost := s.lost + {s.agents[ex].player.value.instance})
            else
              z == s
  {
    assert s.lost + {} == s.lost;
  }

  /** A session that is not waiting logs in under the id of another one that has its player. */
  predicate LogsInUnannounced(s: State, x: Action) {
    x.Login? && s.running && x.key !in s.agentMap && x.pid in s.playerMap &&
    AgentOf(s, s.playerMap[x.pid]).key != x.key && AgentOf(s, s.playerMap[x.pid]).player.Some?
  }

  /** A session whose socket has closed logs in under an id that has no instance yet. */
  predicate LogsInClosed(s: State, x: Action) {
    x.Login? && s.running && x.key in s.agentMap && !AgentOf(s, s.agentMap[x.key]).open &&
    x.pid !in s.playerMap && x.pid !in s.cache
  }

  /** Exactly these destroy an instance without a save: the other session's, and the new one. */
  lemma LosesAPlayerIff(s: State, x: Action)
    requires Reachable(AsMeant, s) && Enabled(s, x)
    ensures Next(AsMeant, s, x).lost != s.lost <==> LogsInUnannounced(s, x) || LogsInClosed(s, x)
    ensures LogsInUnannounced(s, x) ==>
              Next(AsMeant, s, x).lost == s.lost + {AgentOf(s, s.playerMap[x.pid]).player.value.instance}
    ensures LogsInClosed(s, x) ==> Next(AsMeant, s, x).lost == s.lost + {s.created}
  {
    hide Reachable;
    var w := ReachableKeeps(s);
    hide Inv, Enabled, Next, LogsInUnannounced, LogsInClosed;
    if x.Login? {
      NewIsNotLost(s, w);
      if x.pid in s.playerMap && AgentOf(s, s.playerMap[x.pid]).player.Some? {
        HeldIsNotLost(s, w, s.playerMap[x.pid]);
      }
      WaitingIsEmpty(s, w);
      LoginLosesIff(s, x);
    } else {
      OthersLoseNothing(s, x);
    }
  }

  lemma WaitingIsEmpty(s: State, w: Places)
    requires Inv(s, w)
    ensures forall k | k in s.agentMap :: AgentOf(s, s.agentMap[k]).player.None?
  {
    hide PlaceInv, NamedInv, HeldInv, CacheInv, Settled;
  }

  lemma OthersLoseNothing(s: State, x: Action)
    requires Enabled(s, x) && !x.Login?
    ensures Next(AsMeant, s, x).lost == s.lost && !LogsInUnannounced(s, x) && !LogsInClosed(s, x)
  {
  }

  lemma LoginLosesIff(s: State, x: Action)
    requires Enabled(s, x) && x.Login? && s.created !in s.lost
    requires x.pid in s.playerMap && AgentOf(s, s.playerMap[x.pid]).player.Some? ==>
               AgentOf(s, s.playerMap[x.pid]).player.value.instance !in s.lost
    requires forall k | k in s.agentMap :: AgentOf(s, s.agentMap[k]).player.None?
    ensures Next(AsMeant, s, x).lost != s.lost <==> LogsInUnannounced(s, x) || LogsInClosed(s, x)
    ensures LogsInUnannounced(s, x) ==>
              Next(AsMeant, s, x).lost == s.lost + {AgentOf(s, s.playerMap[x.pid]).player.value.instance}
    ensures LogsInClosed(s, x) ==> Next(AsMeant, s, x).lost == s.lost + {s.created}
  {
    hide Notified;
    forall z, a
      ensures Notified(z, a, x.closes).lost == z.lost
    {
      NotifiedLosesNothing(z, a, x.closes);
    }
  }

  lemma NotifiedLosesNothing(s: State, a: AgentId, closes: bool)
    ensures Notified(s, a, closes).lost == s.lost
  {
  }

  lemma HeldIsNotLost(s: State, w: Places, a: AgentId)
    requires Inv(s, w) && AgentOf(s, a).player.Some?
    ensures AgentOf(s, a).player.value.instance !in s.lost
  {
    hide WaitingInv, NamedInv, HeldInv, CacheInv;
  }

  lemma NewIsNotLost(s: State, w: Places)
    requires Inv(s, w)
    ensures s.created !in s.lost
  {
    hide WaitingInv, NamedInv, HeldInv, CacheInv;
  }

  // ---------------------------------------------------------------------------------------------
  // Sockets that close before the player is set up

  /** Some agent is named under `pid` and has no player. */
  ghost predicate Stale(s: State, pid: int) {
    pid in s.playerMap && AgentOf(s, s.playerMap[pid]).player.None?
  }

  /** The login finds its waiting agent with a closed socket, and `pid` not under its own key. */
  predicate ClosedSetUp(s: State, x: Action, pid: int) {
    x.Login? && x.pid == pid && s.running && x.key in s.agentMap && !AgentOf(s, s.agentMap[x.key]).open &&
    (pid in s.playerMap ==> AgentOf(s, s.playerMap[pid]).key != x.key)
  }

  /**
   While the gateway runs, a step leaves a name without a player exactly if it did not have one or
   the set-up was closed.
   */
  lemma StaleStepIff(s: State, w: Places, x: Action, pid: int)
    requires Inv(s, w) && Enabled(s, x) && s.running
    ensures Stale(Next(AsMeant, s, x), pid) <==> Stale(s, pid) || ClosedSetUp(s, x, pid)
  {
    hide PlaceInv, DoLogin, DoCleanUp, CacheInv;
    match x
    case Login(key, _, closes) => LoginStaleIff(s, w, x, pid);
    case CleanUp(a, now) => CleanUpStaleIff(s, w, a, now, pid);
    case Connect(a, key) =>
    case Logout(a) =>
    case Close(a) =>
    case Collect(dropped) =>
    case Stop =>
  }

  lemma CleanUpStaleIff(s: State, w: Places, a: AgentId, now: int, pid: int)
    requires Inv(s, w) && Enabled(s, CleanUp(a, now)) && s.running
    ensures Stale(DoCleanUp(s, a, now), pid) <==> Stale(s, pid)
  {
    hide PlaceInv, CacheInv, WaitingInv;
  }

  ghost predicate SamePlayers(s: State, z: State) {
    forall b :: AgentOf(z, b).player == AgentOf(s, b).player
  }

  /** The agent has a player if its socket is open, and no other agent's player has changed. */
  ghost predicate SetsUp(s: State, a: AgentId, z: State) {
    (AgentOf(z, a).player.Some? <==> AgentOf(s, a).open) && forall b | b != a ::
      AgentOf(z, b).player == AgentOf(s, b).player
  }

  lemma SetUpSays(s: State, s3: State, a: AgentId, q: Player, saved: bool)
    requires SamePlayers(s, s3) && AgentOf(s, a).player.None? && AgentOf(s3, a).open == AgentOf(s, a).open
    ensures var z := SetUpPlayer(AsMeant, s3, a, q, saved);
            z.playerMap == s3.playerMap && SetsUp(s, a, z)
  {
    hide SamePlayers;
    PlayerOf(s, s3, a);
    var agent := AgentOf(s3, a);
    if agent.open {
      OnePlayerPut(s, s3, a, q);
      assert s3.gone + {} == s3.gone;
    } else {
      SamePlayersSay(s, s3, a);
    }
  }

  lemma PlayerOf(s: State, z: State, a: AgentId)
    requires SamePlayers(s, z)
    ensures AgentOf(z, a).player == AgentOf(s, a).player
  {
  }

  lemma SamePlayersSay(s: State, z: State, a: AgentId)
    requires SamePlayers(s, z)
    ensures forall b | b != a :: AgentOf(z, b).player == AgentOf(s, b).player
  {
  }

  lemma OnePlayerPut(s: State, s3: State, a: AgentId, q: Player)
    requires SamePlayers(s, s3)
    ensures var z := s3.(agents := s3.agents[a := AgentOf(s3, a).(player := Some(q))]);
            AgentOf(z, a).player == Some(q) && forall b | b != a :: AgentOf(z, b).player == AgentOf(s, b).player
  {
    forall b | b != a
      ensures AgentOf(s3.(agents := s3.agents[a := AgentOf(s3, a).(player := Some(q))]), b).player ==
              AgentOf(s, b).player
    {
      assert AgentOf(s3, b).player == AgentOf(s, b).player;
    }
  }

  lemma NotifiedSays(s: State, s1: State, ex: AgentId, closes: bool, a: AgentId)
    requires s1.agents == s.agents
    ensures var z := Notified(s1, ex, closes);
            z.playerMap == s1.playerMap && z.created == s1.created && SamePlayers(s, z) &&
            (a != ex ==> AgentOf(z, a) == AgentOf(s, a))
  {
  }

  lemma SamePlayersNow(s: State, s1: State)
    requires s1.agents == s.agents
    ensures SamePlayers(s, s1)
  {
  }

  /** The end of a login names the waiting agent and gives it a player if its socket is open. */
  lemma EnterSays(s: State, key: Key, pid: int, player: Option<Player>, existed: Option<AgentId>, closes: bool)
    requires key in s.agentMap ==> AgentOf(s, s.agentMap[key]).player.None? && existed != Some(s.agentMap[key])
    ensures var z := Enter(AsMeant, s, key, pid, player, existed, closes);
            if key in s.agentMap then z.playerMap == s.playerMap[pid := s.agentMap[key]] &&
            SetsUp(s, s.agentMap[key], z)
            else z.playerMap == s.playerMap && z.agents == s.agents
  {
    hide Chosen, Notified, SetUpPlayer, SamePlayers, SetsUp;
    if key in s.agentMap {
      var a := s.agentMap[key];
      var unused := if player.Some? && pid in s.cache then {s.cache[pid].player.instance} else {};
      var s1 := s.(agentMap := s.agentMap - {key}, playerMap := s.playerMap[pid := a], cache := s.cache - {pid},
                   gone := s.gone + unused);
      var made := if player.None? && pid !in s.cache then 1 else 0;
      if existed.Some? {
        DisplacingSays(s, s1, a, existed.value, closes, made, Chosen(s, pid, player));
      } else {
        SamePlayersNow(s, s1.(created := s1.created + made));
        SetUpSays(s, s1.(created := s1.created + made), a, Chosen(s, pid, player), made == 0);
      }
    }
  }

  lemma DisplacingSays(s: State, s1: State, a: AgentId, ex: AgentId, closes: bool, made: nat, q: Player)
    requires s1.agents == s.agents && AgentOf(s, a).player.None? && ex != a
    ensures var s2 := Notified(s1, ex, closes);
            var z := SetUpPlayer(AsMeant, s2.(created := s2.created + made), a, q, made == 0);
            z.playerMap == s1.playerMap && SetsUp(s, a, z)
  {
    hide Notified, SetUpPlayer, SamePlayers, SetsUp;
    var s2 := Notified(s1, ex, closes);
    NotifiedSays(s, s1, ex, closes, a);
    CreatedSays(s, s2, s2.created + made);
    SetUpSays(s, s2.(created := s2.created + made), a, q, made == 0);
  }

  lemma CreatedSays(s: State, s2: State, created: nat)
    requires SamePlayers(s, s2)
    ensures SamePlayers(s, s2.(created := created))
  {
    forall b
      ensures AgentOf(s2.(created := created), b).player == AgentOf(s, b).player
    {
      assert AgentOf(s2, b).player == AgentOf(s, b).player;
    }
  }

  lemma LoginStaleIff(s: State, w: Places, x: Action, pid: int)
    requires Inv(s, w) && Enabled(s, x) && x.Login? && s.running
    ensures Stale(DoLogin(AsMeant, s, x.key, x.pid, x.closes), pid) <==> Stale(s, pid) || ClosedSetUp(s, x, pid)
  {
    hide PlaceInv, CacheInv, HeldInv, Enter;
    if x.pid !in s.playerMap {
      EnterSays(s, x.key, x.pid, None, None, x.closes);
    } else {
      var ex := s.playerMap[x.pid];
      var agent := AgentOf(s, ex);
      if agent.key != x.key && agent.player.Some? {
        var s1 := s.(agents := s.agents[ex := agent.(player := None)], playerMap := s.playerMap - {x.pid});
        EnterSays(s1, x.key, x.pid, agent.player, Some(ex), x.closes);
      }
    }
  }

  /** Some login of the run is such a set-up for `pid`. */
  predicate SomeClosedSetUp(s: State, run: seq<Action>, pid: int)
    requires IsRun(AsMeant, s, run)
    decreases |run|
  {
    run != [] && (ClosedSetUp(s, run[0], pid) || SomeClosedSetUp(Next(AsMeant, s, run[0]), run[1..], pid))
  }

  lemma {:induction false} StoppedStays(s: State, run: seq<Action>)
    requires IsRun(AsMeant, s, run) && After(AsMeant, s, run).running
    ensures s.running
    decreases |run|
  {
    hide Enabled, Next;
    if run != [] {
      StoppedStays(Next(AsMeant, s, run[0]), run[1..]);
      NeverRestarts(s, run[0]);
    }
  }

  lemma NeverRestarts(s: State, x: Action)
    requires Enabled(s, x)
    ensures Next(AsMeant, s, x).running ==> s.running
  {
    hide Chosen;
  }

  lemma {:induction false} StaleFollows(s: State, w: Places, run: seq<Action>, pid: int)
    requires Inv(s, w) && IsRun(AsMeant, s, run) && After(AsMeant, s, run).running
    ensures Stale(After(AsMeant, s, run), pid) <==> Stale(s, pid) || SomeClosedSetUp(s, run, pid)
    decreases |run|
  {
    hide Inv, Enabled, Next, Stale, ClosedSetUp;
    if run != [] {
      var w1 := StepKeeps(s, w, run[0]);
      StoppedStays(s, run);
      StaleStepIff(s, w, run[0], pid);
      StaleFollows(Next(AsMeant, s, run[0]), w1, run[1..], pid);
    }
  }

  /**
   While the gateway runs, every name has its player except exactly those under which a login of the
   run set up an agent whose socket had closed.
   */
  lemma StaleIff(run: seq<Action>, pid: int)
    requires IsRun(AsMeant, Empty(), run) && After(AsMeant, Empty(), run).running
    ensures Stale(After(AsMeant, Empty(), run), pid) <==> SomeClosedSetUp(Empty(), run, pid)
  {
    assert Inv(Empty(), map[]);
    StaleFollows(Empty(), map[], run, pid);
  }

  /** A null player is followed exactly by a login under another key and an id with such a set-up before it. */
  lemma CrashesIff(run: seq<Action>, x: Action)
    requires IsRun(AsMeant, Empty(), run) && Enabled(After(AsMeant, Empty(), run), x)
    ensures var s := After(AsMeant, Empty(), run);
            Next(AsMeant, s, x).crashed <==>
            x.Login? && s.running && x.pid in s.playerMap && AgentOf(s, s.playerMap[x.pid]).key != x.key &&
            SomeClosedSetUp(Empty(), run, x.pid)
  {
    var s := After(AsMeant, Empty(), run);
    if x.Login? && s.running {
      StaleIff(run, x.pid);
    }
    hide IsRun, After, SomeClosedSetUp;
    CrashStepIff(s, x);
  }

  lemma CrashStepIff(s: State, x: Action)
    requires Enabled(s, x)
    ensures Next(AsMeant, s, x).crashed <==>
            x.Login? && s.running && Stale(s, x.pid) && AgentOf(s, s.playerMap[x.pid]).key != x.key
  {
    if x.Login? {
      hide Enter;
      forall z, player, existed
        ensures Enter(AsMeant, z, x.key, x.pid, player, existed, x.closes).crashed == z.crashed
      {
        EnterNeverCrashes(z, x.key, x.pid, player, existed, x.closes);
      }
    } else {
      OthersNeverCrash(s, x);
    }
  }

  lemma EnterNeverCrashes(s: State, key: Key, pid: int, player: Option<Player>, existed: Option<AgentId>, closes: bool)
    ensures Enter(AsMeant, s, key, pid, player, existed, closes).crashed == s.crashed
  {
    hide Chosen;
  }

  lemma OthersNeverCrash(s: State, x: Action)
    requires Enabled(s, x) && !x.Login?
    ensures !Next(AsMeant, s, x).crashed
  {
  }

  /** Each agent that the player map names has a player. */
  ghost predicate Filled(s: State) {
    forall pid :: !Stale(s, pid)
  }

  /** A running gateway whose names all have their players stays so exactly if no set-up is closed. */
  lemma FilledIff(s: State, x: Action)
    requires Reachable(AsMeant, s) && Enabled(s, x) && s.running && Filled(s)
    ensures Filled(Next(AsMeant, s, x)) <==> !(x.Login? && ClosedSetUp(s, x, x.pid))
  {
    hide Reachable;
    var w := ReachableKeeps(s);
    hide Inv, Enabled, Next, Stale;
    forall pid
      ensures Stale(Next(AsMeant, s, x), pid) <==> ClosedSetUp(s, x, pid)
    {
      StaleStepIff(s, w, x, pid);
    }
  }

  /** The agent that is named under `pid` and has no player. */
  ghost predicate IsStale(s: State, pid: int, a: AgentId) {
    pid in s.playerMap && s.playerMap[pid] == a && AgentOf(s, a).player.None?
  }

  lemma LoginKeepsStale(s: State, w: Places, pid: int, a: AgentId, x: Action)
    requires Inv(s, w) && Enabled(s, x) && x.Login? && IsStale(s, pid, a)
    ensures IsStale(DoLogin(AsMeant, s, x.key, x.pid, x.closes), pid, a)
  {
    hide PlaceInv, CacheInv, HeldInv, Enter;
    if x.pid != pid && s.running {
      if x.pid !in s.playerMap {
        EnterSays(s, x.key, x.pid, None, None, x.closes);
      } else {
        var ex := s.playerMap[x.pid];
        var agent := AgentOf(s, ex);
        var s1 := s.(agents := s.agents[ex := agent.(player := None)], playerMap := s.playerMap - {x.pid});
        EnterSays(s1, x.key, x.pid, agent.player, Some(ex), x.closes);
      }
    }
  }

  lemma CleanUpKeepsStale(s: State, w: Places, pid: int, a: AgentId, b: AgentId, now: int)
    requires Inv(s, w) && Enabled(s, CleanUp(b, now)) && IsStale(s, pid, a)
    ensures IsStale(DoCleanUp(s, b, now), pid, a)
  {
    hide PlaceInv, CacheInv, WaitingInv, NamedInv;
  }

  /** The name of an agent whose player was never set up stays until the login that follows the null player. */
  lemma StaleNameStays(s: State, pid: int, a: AgentId, x: Action)
    requires Reachable(AsMeant, s) && Enabled(s, x) && IsStale(s, pid, a)
    ensures IsStale(Next(AsMeant, s, x), pid, a)
    ensures x.Login? && x.pid == pid && s.running && x.key != AgentOf(s, a).key ==> Next(AsMeant, s, x).crashed
  {
    hide Reachable;
    var w := ReachableKeeps(s);
    if x.Login? {
      LoginKeepsStale(s, w, pid, a, x);
    }
    if x.CleanUp? {
      CleanUpKeepsStale(s, w, pid, a, x.a, x.now);
    }
    hide Core, Enter, DoCleanUp;
  }

  lemma Then(g: Guards, s: State, x: Action)
    requires Reachable(g, s) && Enabled(s, x)
    ensures Reachable(g, Next(g, s, x))
  {
    var run :| IsRun(g, Empty(), run) && After(g, Empty(), run) == s;
    hide Enabled, Next;
    RunExtends(g, Empty(), run, x);
  }

  lemma {:induction false} RunExtends(g: Guards, s: State, run: seq<Action>, x: Action)
    requires IsRun(g, s, run) && Enabled(After(g, s, run), x)
    ensures IsRun(g, s, run + [x]) && After(g, s, run + [x]) == Next(g, After(g, s, run), x)
    decreases |run|
  {
    hide Enabled, Next;
    if run == [] {
      assert run + [x] == [x] && [x][1..] == [];
      assert IsRun(g, Next(g, s, x), []) && After(g, Next(g, s, x), []) == Next(g, s, x);
    } else {
      RunExtends(g, Next(g, s, run[0]), run[1..], x);
      assert (run + [x])[1..] == run[1..] + [x];
    }
  }

  // ---------------------------------------------------------------------------------------------
  // The guards as written

  /** No agent holds a player and none is cached. */
  ghost predicate Playerless(s: State) {
    (forall a | a in s.agents :: s.agents[a].player.None?) && s.cache == map[]
  }

  lemma StepKeepsPlayerless(s: State, x: Action)
    requires Playerless(s) && Enabled(s, x)
    ensures Playerless(Next(AsWritten, s, x))
  {
  }

  lemma {:induction false} RunKeepsPlayerless(s: State, run: seq<Action>)
    requires Playerless(s) && IsRun(AsWritten, s, run)
    ensures Playerless(After(AsWritten, s, run))
    decreases |run|
  {
    hide Playerless, Enabled, Next;
    if run != [] {
      StepKeepsPlayerless(s, run[0]);
      RunKeepsPlayerless(Next(AsWritten, s, run[0]), run[1..]);
    }
  }

  /** As written, no login ever gives an agent a player, and the second session under an id crashes. */
  lemma AsWrittenNobodyPlays(s: State, key: Key, pid: int, closes: bool)
    requires Reachable(AsWritten, s) && Enabled(s, Login(key, pid, closes))
    ensures forall a | a in s.agents :: s.agents[a].player.None?
    ensures s.running && pid in s.playerMap && AgentOf(s, s.playerMap[pid]).key != key ==>
              Next(AsWritten, s, Login(key, pid, closes)).crashed
  {
    var run :| IsRun(AsWritten, Empty(), run) && After(AsWritten, Empty(), run) == s;
    hide IsRun, After;
    RunKeepsPlayerless(Empty(), run);
  }

  /** As written, a login moves the waiting agent to the player map and destroys the new player unsaved. */
  lemma AsWrittenLoginLoses(s: State, key: Key, pid: int, closes: bool)
    requires Reachable(AsWritten, s) && Enabled(s, Login(key, pid, closes)) && s.running
    requires key in s.agentMap && pid !in s.playerMap
    ensures Next(AsWritten, s, Login(key, pid, closes)) ==
            s.(agentMap := s.agentMap - {key}, playerMap := s.playerMap[pid := s.agentMap[key]],
               created := s.created + 1, lost := s.lost + {s.created})
  {
    var run :| IsRun(AsWritten, Empty(), run) && After(AsWritten, Empty(), run) == s;
    hide IsRun, After;
    RunKeepsPlayerless(Empty(), run);
    assert s.cache - {pid} == s.cache && s.gone + {} == s.gone;
  }

  // ---------------------------------------------------------------------------------------------
  // Keys

  /** A waiting agent is forgotten by the clean-up of another exactly when both have one key. */
  lemma CleanUpForgetsIff(s: State, a: AgentId, now: int, key: Key)
    requires Reachable(AsMeant, s) && Enabled(s, CleanUp(a, now)) && key in s.agentMap && s.agentMap[key] != a
    ensures AgentOf(s, s.agentMap[key]).key == key
    ensures key !in Next(AsMeant, s, CleanUp(a, now)).agentMap <==> s.running && s.agents[a].key == key
  {
    CleanUpRemovesOnlyItself(s, a, now);
    hide Reachable;
    var w := ReachableKeeps(s);
    hide PlaceInv, NamedInv, HeldInv, CacheInv, Next;
  }

  /** That happens: a key is free again once its agent has logged in, so a second agent may wait under it. */
  lemma SharedKeyIsForgotten()
    ensures exists s ::
              Reachable(AsMeant, s) && Enabled(s, CleanUp(0, 0)) && "k" in s.agentMap && s.agentMap["k"] == 1 &&
              "k" !in Next(AsMeant, s, CleanUp(0, 0)).agentMap
  {
    LoggedIn();
    hide Reachable;
    var s2 := Empty().(agents := map[0 := Agent("k", Some(Player(0, 7)), true, true)], playerMap := map[7 := 0],
      created := 1);
    Then(AsMeant, s2, Connect(1, "k"));
    var s3 := Next(AsMeant, s2, Connect(1, "k"));
    assert Enabled(s3, CleanUp(0, 0)) && "k" in s3.agentMap && s3.agentMap["k"] == 1;
    assert "k" !in Next(AsMeant, s3, CleanUp(0, 0)).agentMap;
  }

  lemma LoggedIn()
    ensures Reachable(AsMeant,
              Empty().(agents := map[0 := Agent("k", Some(Player(0, 7)), true, true)], playerMap := map[7 := 0],
                created := 1))
  {
    var s0 := Empty();
    assert IsRun(AsMeant, s0, []) && After(AsMeant, s0, []) == s0;
    hide Reachable;
    Then(AsMeant, s0, Connect(0, "k"));
    var s1 := s0.(agents := map[0 := Agent("k", None, true, true)], agentMap := map["k" := 0]);
    assert Next(AsMeant, s0, Connect(0, "k")) == s1;
    Then(AsMeant, s1, Login("k", 7, false));
    assert s1.agentMap - {"k"} == map[] && s1.cache - {7} == map[];
    assert Next(AsMeant, s1, Login("k", 7, false)) ==
           Empty().(agents := map[0 := Agent("k", Some(Player(0, 7)), true, true)], playerMap := map[7 := 0],
             created := 1);
  }
}
