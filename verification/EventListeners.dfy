/** Event listeners as a relation, and why the purge of expired ones cannot be observed. */
module EventListeners {
  type Agent = int

  /** The agent registered for an event under an id. */
  type Listeners = map<(int, int), Agent>

  /** `Expire` is the end of an agent, after which its weak pointer yields nothing. */
  datatype Op =
    | Listen(event: int, id: int, agent: Agent)
    | RemoveByEvent(event: int, id: int)
    | RemoveListener(id: int)
    | Purge
    | Expire(agent: Agent)

  datatype State = State(listeners: Listeners, dead: set<Agent>)

  /** Ids below `least` and negative events are refused. */
  function Apply(s: State, least: int, op: Op): State {
    match op
    case Listen(event, id, agent) =>
      if id < least || event < 0 then s else s.(listeners := s.listeners[(event, id) := agent])
    case RemoveByEvent(event, id) =>
      if id < least || event < 0 then s else s.(listeners := s.listeners - {(event, id)})
    case RemoveListener(id) => if id < least then s else s.(listeners := WithoutId(s.listeners, id))
    case Purge => s.(listeners := Unexpired(s.listeners, s.dead))
    case Expire(agent) => s.(dead := s.dead + {agent})
  }

  function WithoutId(listeners: Listeners, id: int): Listeners {
    map k | k in listeners && k.1 != id :: listeners[k]
  }

  function Unexpired(listeners: Listeners, dead: set<Agent>): Listeners {
    map k | k in listeners && listeners[k] !in dead :: listeners[k]
  }

  function Run(s: State, least: int, ops: seq<Op>): State
    decreases |ops|
  {
    if ops == [] then s else Run(Apply(s, least, ops[0]), least, ops[1..])
  }

  /** The listeners that a dispatch of the event reaches. */
  function Reached(s: State, event: int): map<int, Agent> {
    map k | k in s.listeners && k.0 == event && s.listeners[k] !in s.dead :: k.1 := s.listeners[k]
  }

  lemma ReachedSays(s: State, event: int, id: int)
    ensures id in Reached(s, event) <==> (event, id) in s.listeners && s.listeners[(event, id)] !in s.dead
    ensures id in Reached(s, event) ==> Reached(s, event)[id] == s.listeners[(event, id)]
  {
    if (event, id) in s.listeners {
      assert (event, id).0 == event && (event, id).1 == id;
    }
  }

  /**
   An accepted registration is reached from then on, under its latest agent and as long as that lives;
   it changes nothing for any other id or event, and a refused one changes nothing at all.
   */
  lemma ListenIsSeen(s: State, least: int, event: int, id: int, agent: Agent, e: int)
    ensures var z := Apply(s, least, Listen(event, id, agent));
            Reached(z, e) ==
            if id < least || event < 0 || e != event then Reached(s, e)
            else if agent in s.dead then Reached(s, e) - {id}
            else Reached(s, e)[id := agent]
  {
    var z := Apply(s, least, Listen(event, id, agent));
    forall i
      ensures id >= least && event >= 0 && e == event && i == id ==> (i in Reached(z, e) <==> agent !in s.dead)
      ensures id < least || event < 0 || e != event || i != id ==> (i in Reached(z, e) <==> i in Reached(s, e))
      ensures i in Reached(z, e) ==> Reached(z, e)[i] == z.listeners[(e, i)]
      ensures i in Reached(s, e) ==> Reached(s, e)[i] == s.listeners[(e, i)]
    {
      ReachedSays(s, e, i);
      ReachedSays(z, e, i);
    }
  }

  /** A removal for one event, or for all, silences exactly the id it names; a refused one changes nothing. */
  lemma RemovalIsSeen(s: State, least: int, event: int, id: int, e: int)
    ensures Reached(Apply(s, least, RemoveByEvent(event, id)), e) ==
            Reached(s, e) - if id >= least && event >= 0 && e == event then {id} else {}
    ensures Reached(Apply(s, least, RemoveListener(id)), e) == Reached(s, e) - if id >= least then {id} else {}
  {
    hide Reached;
    var one, all := Apply(s, least, RemoveByEvent(event, id)), Apply(s, least, RemoveListener(id));
    ReachedWithout(s, one, e, if id >= least && event >= 0 && e == event then {id} else {});
    ReachedWithout(s, all, e, if id >= least then {id} else {});
  }

  lemma ReachedWithout(s: State, z: State, e: int, ids: set<int>)
    requires z.dead == s.dead
    requires forall i :: (e, i) in z.listeners <==> (e, i) in s.listeners && i !in ids
    requires forall i | (e, i) in z.listeners :: z.listeners[(e, i)] == s.listeners[(e, i)]
    ensures Reached(z, e) == Reached(s, e) - ids
  {
    forall i
      ensures i in Reached(z, e) <==> i in Reached(s, e) && i !in ids
      ensures i in Reached(z, e) ==> Reached(z, e)[i] == Reached(s, e)[i]
    {
      ReachedSays(s, e, i);
      ReachedSays(z, e, i);
    }
  }

  /** The end of an agent silences exactly what it was registered for, and a purge keeps exactly what is reached. */
  lemma ExpiryIsSeen(s: State, least: int, agent: Agent, e: int, id: int)
    ensures var z := Apply(s, least, Expire(agent));
            (id in Reached(z, e) <==> id in Reached(s, e) && Reached(s, e)[id] != agent) &&
            (id in Reached(z, e) ==> Reached(z, e)[id] == Reached(s, e)[id])
    ensures var z := Apply(s, least, Purge);
            ((e, id) in z.listeners <==> id in Reached(s, e)) && (id in Reached(z, e) <==> id in Reached(s, e)) &&
            (id in Reached(z, e) ==> Reached(z, e)[id] == Reached(s, e)[id])
  {
    ReachedSays(s, e, id);
    ReachedSays(Apply(s, least, Expire(agent)), e, id);
    ReachedSays(Apply(s, least, Purge), e, id);
    hide Reached;
  }

  function WithoutPurges(ops: seq<Op>): seq<Op> {
    if ops == [] then [] else (if ops[0] == Purge then [] else [ops[0]]) + WithoutPurges(ops[1..])
  }

  /** The same agents have expired and the same others are registered in the same places. */
  ghost predicate Agree(s: State, t: State) {
    s.dead == t.dead &&
    (forall k | k in s.listeners && s.listeners[k] !in s.dead ::
      k in t.listeners && t.listeners[k] == s.listeners[k]) &&
    (forall k | k in t.listeners && t.listeners[k] !in t.dead :: k in s.listeners && s.listeners[k] == t.listeners[k])
  }

  lemma ApplyAgrees(s: State, t: State, least: int, op: Op)
    requires Agree(s, t)
    ensures Agree(Apply(s, least, op), if op == Purge then t else Apply(t, least, op))
  {
  }

  lemma AgreeingDispatch(s: State, t: State, event: int)
    requires Agree(s, t)
    ensures Reached(s, event) == Reached(t, event)
  {
    forall id | id in Reached(s, event)
      ensures id in Reached(t, event) && Reached(t, event)[id] == Reached(s, event)[id]
    {
      assert (event, id) in s.listeners;
    }
    forall id | id in Reached(t, event)
      ensures id in Reached(s, event)
    {
      assert (event, id) in t.listeners;
    }
  }

  lemma {:induction false} RunAgrees(s: State, t: State, least: int, ops: seq<Op>)
    requires Agree(s, t)
    ensures Agree(Run(s, least, ops), Run(t, least, WithoutPurges(ops)))
    decreases |ops|
  {
    hide Agree, Apply;
    if ops != [] {
      ApplyAgrees(s, t, least, ops[0]);
      if ops[0] == Purge {
        assert WithoutPurges(ops) == WithoutPurges(ops[1..]);
        RunAgrees(Apply(s, least, ops[0]), t, least, ops[1..]);
      } else {
        assert WithoutPurges(ops)[1..] == WithoutPurges(ops[1..]);
        RunAgrees(Apply(s, least, ops[0]), Apply(t, least, ops[0]), least, ops[1..]);
      }
    }
  }

  /** Whatever happens in between, no dispatch can tell whether expired listeners were purged. */
  lemma PurgesAreInvisible(s: State, least: int, ops: seq<Op>, event: int)
    ensures Reached(Run(s, least, ops), event) == Reached(Run(s, least, WithoutPurges(ops)), event)
  {
    assert Agree(s, s);
    RunAgrees(s, s, least, ops);
    AgreeingDispatch(Run(s, least, ops), Run(s, least, WithoutPurges(ops)), event);
  }

  /** A removed or expired listener is never reached again unless it is registered again. */
  lemma {:induction false} StaysSilent(s: State, least: int, ops: seq<Op>, event: int, id: int)
    requires id !in Reached(s, event) && forall i | 0 <= i < |ops| && ops[i].Listen? ::
               ops[i].event != event || ops[i].id != id
    ensures id !in Reached(Run(s, least, ops), event)
    decreases |ops|
  {
    if ops != [] {
      SilentStep(s, least, ops[0], event, id);
      hide Apply, Reached;
      StaysSilent(Apply(s, least, ops[0]), least, ops[1..], event, id);
    }
  }

  lemma SilentStep(s: State, least: int, op: Op, event: int, id: int)
    requires id !in Reached(s, event) && (op.Listen? ==> op.event != event || op.id != id)
    ensures id !in Reached(Apply(s, least, op), event)
  {
    assert (event, id) in s.listeners ==> s.listeners[(event, id)] in s.dead;
  }
}
