/**
 Login sessions: which agent holds which player instance.

 Connecting, logging in, cleaning an agent up, collecting cached players and stopping are atomic
 actions.  Two guards of the agent are inverted in the source; `Guards` selects the text as written
 or its evident meaning.  Agents and instances are numbered; two agents may have the same key.
 */
module GatewaySteps {
  import opened Wrappers

  type AgentId = nat
  type Key = string

  datatype Guards = AsWritten | AsMeant

  datatype Player = Player(instance: nat, pid: int)

  /** `open` stands for both the socket and the channel. */
  datatype Agent = Agent(key: Key, player: Option<Player>, cachable: bool, open: bool)

  datatype Cached = Cached(player: Player, at: int)

  /**
   `agentMap` has the agents that are not logged in by key, `playerMap` the others by player id.
   `created` counts instances; `lost` are those destroyed without a save, `gone` the others
   destroyed (history).  `crashed` is set when a null player is followed.
   */
  datatype State = State(
    agents: map<AgentId, Agent>, agentMap: map<Key, AgentId>, playerMap: map<int, AgentId>, cache: map<int, Cached>,
    created: nat, lost: set<nat>, gone: set<nat>, running: bool, crashed: bool)

  /** What code outside the gateway decides is part of the action. */
  datatype Action =
    | Connect(a: AgentId, key: Key)
    /** `closes`: the handler has no answer for the displaced session, which is disconnected. */
    | Login(key: Key, pid: int, closes: bool)
    | Logout(a: AgentId)
    | Close(a: AgentId)
    | CleanUp(a: AgentId, now: int)
    | Collect(dropped: set<int>)
    | Stop

  function Empty(): State {
    State(map[], map[], map[], map[], 0, {}, {}, true, false)
  }

  function AgentOf(s: State, a: AgentId): Agent {
    if a in s.agents then s.agents[a] else Agent("", None, false, false)
  }

  function Instance(p: Option<Player>): set<nat> {
    if p.Some? then {p.value.instance} else {}
  }

  predicate Enabled(s: State, x: Action) {
    !s.crashed &&
    match x
    case Connect(a, _) => s.running && a !in s.agents
    case Logout(a) => a in s.agents && s.agents[a].player.Some?
    case Close(a) => a in s.agents
    case CleanUp(a, _) => a in s.agents
    case Collect(dropped) => s.running && dropped <= s.cache.Keys
    case _ => true
  }

  /** A connection whose key is empty or taken is dropped. */
  function DoConnect(s: State, a: AgentId, key: Key): State {
    if key == "" || key in s.agentMap then s
    else s.(agents := s.agents[a := Agent(key, None, true, true)], agentMap := s.agentMap[key := a])
  }

  /** SetUpPlayer; a player it does not take is destroyed by the caller, who saved it unless it is new. */
  function SetUpPlayer(g: Guards, s: State, a: AgentId, q: Player, saved: bool): State {
    var agent := AgentOf(s, a);
    var refused := if saved then s.(gone := s.gone + {q.instance}) else s.(lost := s.lost + {q.instance});
    var taken := s.(agents := s.agents[a := agent.(player := Some(q))], gone := s.gone + Instance(agent.player));
    if !agent.open then refused
    else match g
      case AsWritten => if agent.player.None? then refused else taken
      case AsMeant => if agent.player.Some? then refused else taken
  }

  /** OnRepeated on the displaced agent, as meant. */
  function Notified(s: State, a: AgentId, closes: bool): State {
    var agent := AgentOf(s, a);
    s.(agents := s.agents[a := agent.(cachable := false, open := agent.open && !closes)])
  }

  /** The instance to use: the one taken over, else the cached one, else a new one. */
  function Chosen(s: State, pid: int, player: Option<Player>): Player {
    if player.Some? then player.value.(pid := pid)
    else if pid in s.cache then s.cache[pid].player.(pid := pid)
    else Player(s.created, pid)
  }

  /** The rest of a login, with what was taken from a displaced agent. */
  function Enter(
    g: Guards, s: State, key: Key, pid: int, player: Option<Player>, existed: Option<AgentId>, closes: bool): State {
    if key !in s.agentMap then s.(lost := s.lost + Instance(player))
    else
      var a := s.agentMap[key];
      var q := Chosen(s, pid, player);
      var unused := if player.Some? && pid in s.cache then {s.cache[pid].player.instance} else {};
      var s1 := s.(agentMap := s.agentMap - {key}, playerMap := s.playerMap[pid := a], cache := s.cache - {pid},
                   gone := s.gone + unused);
      if existed.Some? && g.AsWritten? then s1.(lost := s1.lost + Instance(player))
      else
        var s2 := if existed.Some? then Notified(s1, existed.value, closes) else s1;
        var made := if player.None? && pid !in s.cache then 1 else 0;
        SetUpPlayer(g, s2.(created := s2.created + made), a, q, made == 0)
  }

  /** OnPlayerLogin. */
  function DoLogin(g: Guards, s: State, key: Key, pid: int, closes: bool): State {
    if !s.running then s
    else if pid !in s.playerMap then Enter(g, s, key, pid, None, None, closes)
    else
      var ex := s.playerMap[pid];
      var agent := AgentOf(s, ex);
      if agent.key == key then s
      else match agent.player
        case None => s.(crashed := true)
        case Some(p) =>
          var s1 := s.(agents := s.agents[ex := agent.(player := None)], playerMap := s.playerMap - {pid});
          Enter(g, s1, key, pid, Some(p), Some(ex), closes)
  }

  function RemoveAgent(s: State, key: Key): State {
    if s.running then s.(agentMap := s.agentMap - {key}) else s
  }

  /** RecyclePlayer: without effect when stopped or when the id is not positive; the agent then keeps the player. */
  function Recycled(s: State, a: AgentId, p: Player, now: int): State {
    if !s.running || p.pid <= 0 then s
    else
      var over := if p.pid in s.cache then {s.cache[p.pid].player.instance} else {};
      s.(agents := s.agents[a := AgentOf(s, a).(player := None)], playerMap := s.playerMap - {p.pid},
         cache := s.cache[p.pid := Cached(p, now)], gone := s.gone + over)
  }

  function Released(s: State, a: AgentId, p: Player): State {
    s.(agents := s.agents[a := AgentOf(s, a).(player := None)],
       playerMap := if s.running then s.playerMap - {p.pid} else s.playerMap, gone := s.gone + {p.instance})
  }

  /** CleanUp of an agent. */
  function DoCleanUp(s: State, a: AgentId, now: int): State {
    var agent := AgentOf(s, a);
    match agent.player
    case None => RemoveAgent(s, agent.key)
    case Some(p) => RemoveAgent(if agent.cachable then Recycled(s, a, p, now) else Released(s, a, p), agent.key)
  }

  function InstancesOf(cache: map<int, Cached>, pids: set<int>): set<nat> {
    set pid | pid in pids && pid in cache :: cache[pid].player.instance
  }

  function DoCollect(s: State, dropped: set<int>): State {
    s.(cache := s.cache - dropped, gone := s.gone + InstancesOf(s.cache, dropped))
  }

  function Next(g: Guards, s: State, x: Action): State
    requires Enabled(s, x)
  {
    match x
    case Connect(a, key) => DoConnect(s, a, key)
    case Login(key, pid, closes) => DoLogin(g, s, key, pid, closes)
    case Logout(a) => s.(agents := s.agents[a := s.agents[a].(cachable := false)])
    case Close(a) => s.(agents := s.agents[a := s.agents[a].(open := false)])
    case CleanUp(a, now) => DoCleanUp(s, a, now)
    case Collect(dropped) => DoCollect(s, dropped)
    case Stop => s.(running := false)
  }

  predicate IsRun(g: Guards, s: State, run: seq<Action>)
    decreases |run|
  {
    run == [] || (Enabled(s, run[0]) && IsRun(g, Next(g, s, run[0]), run[1..]))
  }

  function After(g: Guards, s: State, run: seq<Action>): State
    requires IsRun(g, s, run)
    decreases |run|
  {
    if run == [] then s else After(g, Next(g, s, run[0]), run[1..])
  }
}
