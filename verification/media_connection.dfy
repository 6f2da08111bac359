/** `obsidian.bedrock.MediaConnection`: one guild's voice connection. The
    frame provider, gateway connection and connection handler are foreign
    objects, identified here by number; what the connection does to them is
    recorded, in order, in an effect log. */
module MediaConnection {
  import opened Wrappers
  import opened KotlinInt

  const NORMAL_CLOSURE: int := 1000

  /** The gateway connection and whether its socket is open. */
  datatype Gateway = Gateway(id: nat, open: bool)

  datatype Effect =
    | DisposeProvider(provider: nat)
    | CloseGateway(gateway: nat, code: int)
    | CloseHandler(handler: nat)
    | StartGateway(gateway: nat)
    | StartPolling
    | StopPolling
    | RemovedFromClient

  datatype Connection = Connection(
    id: Long,
    frameProvider: Option<nat>,
    gateway: Option<Gateway>,
    connectionHandler: Option<nat>,
    polling: bool,
    log: seq<Effect>)

  function New(id: Long): (c: Connection)
    ensures c.id == id && c.frameProvider.None? && c.gateway.None? && c.connectionHandler.None?
    ensures !c.polling && c.log == []
  {
    Connection(id, None, None, None, false, [])
  }

  /** The `frameProvider` setter: the previous provider, if any, is disposed
      before the new one takes its place. */
  function SetFrameProvider(c: Connection, provider: Option<nat>): (r: Connection)
    ensures r.frameProvider == provider
    ensures c.frameProvider.Some? ==> r.log == c.log + [DisposeProvider(c.frameProvider.value)]
    ensures c.frameProvider.None? ==> r.log == c.log
    ensures r.(frameProvider := c.frameProvider, log := c.log) == c
  {
    var log := if c.frameProvider.Some? then c.log + [DisposeProvider(c.frameProvider.value)] else c.log;
    c.(frameProvider := provider, log := log)
  }

  /** `startFramePolling`: a no-op while polling. */
  function StartFramePolling(c: Connection): (r: Connection)
    ensures r.polling
    ensures c.polling ==> r == c
    ensures !c.polling ==> r == c.(polling := true, log := c.log + [StartPolling])
  {
    if c.polling then c else c.(polling := true, log := c.log + [StartPolling])
  }

  /** `stopFramePolling`: a no-op unless polling. */
  function StopFramePolling(c: Connection): (r: Connection)
    ensures !r.polling
    ensures !c.polling ==> r == c
    ensures c.polling ==> r == c.(polling := false, log := c.log + [StopPolling])
  {
    if !c.polling then c else c.(polling := false, log := c.log + [StopPolling])
  }

  /** `disconnect`: polling stops, an open gateway is closed normally and
      forgotten (one that is not open stays referenced), and the connection
      handler is closed and forgotten. */
  function Disconnect(c: Connection): (r: Connection)
    ensures !r.polling && r.id == c.id && r.frameProvider == c.frameProvider && r.connectionHandler.None?
    ensures c.gateway.Some? && c.gateway.value.open ==> r.gateway.None?
    ensures !(c.gateway.Some? && c.gateway.value.open) ==> r.gateway == c.gateway
    ensures r.log == StopFramePolling(c).log +
                     (if c.gateway.Some? && c.gateway.value.open then [CloseGateway(c.gateway.value.id, NORMAL_CLOSURE)] else []) +
                     (if c.connectionHandler.Some? then [CloseHandler(c.connectionHandler.value)] else [])
  {
    var stopped := StopFramePolling(c);
    var closedGateway :=
      if stopped.gateway.Some? && stopped.gateway.value.open
      then stopped.(gateway := None, log := stopped.log + [CloseGateway(stopped.gateway.value.id, NORMAL_CLOSURE)])
      else stopped;
    if closedGateway.connectionHandler.Some?
    then closedGateway.(connectionHandler := None, log := closedGateway.log + [CloseHandler(closedGateway.connectionHandler.value)])
    else closedGateway
  }

  /** `connect`: an existing gateway connection is disconnected first, then
      a new one (from the gateway version's factory) is stored and started. */
  function Connect(c: Connection, created: nat): (r: Connection)
    ensures r.gateway == Some(Gateway(created, true))
    ensures c.gateway.Some? ==> r.log == Disconnect(c).log + [StartGateway(created)] && !r.polling
    ensures c.gateway.None? ==> r.log == c.log + [StartGateway(created)] && r.polling == c.polling
  {
    var base := if c.gateway.Some? then Disconnect(c) else c;
    base.(gateway := Some(Gateway(created, true)), log := base.log + [StartGateway(created)])
  }

  /** `close`: the provider is disposed and then cleared through the
      setter, which disposes it a second time; the connection disconnects
      and removes itself from its Bedrock client. */
  function Close(c: Connection): (r: Connection)
    ensures r.frameProvider.None? && r.connectionHandler.None? && !r.polling
    ensures |r.log| >= 1 && r.log[|r.log| - 1] == RemovedFromClient
    ensures c.frameProvider.Some? ==> |r.log| > |c.log| + 1 &&
                                      r.log[|c.log|] == DisposeProvider(c.frameProvider.value) &&
                                      r.log[|c.log| + 1] == DisposeProvider(c.frameProvider.value)
    ensures c.frameProvider.None? && c.polling ==> |r.log| > |c.log| && r.log[|c.log|] == StopPolling
  {
    var released :=
      if c.frameProvider.Some?
      then SetFrameProvider(c.(log := c.log + [DisposeProvider(c.frameProvider.value)]), None)
      else c;
    var d := Disconnect(released);
    d.(log := d.log + [RemovedFromClient])
  }

  /** Replacing a provider disposes it once; closing the connection disposes
      it twice in a row and never again. */
  lemma ProviderDisposals(c: Connection, p: nat, q: nat)
    requires c.frameProvider == Some(p)
    ensures SetFrameProvider(c, Some(q)).log == c.log + [DisposeProvider(p)]
    ensures Close(c).log[|c.log|] == DisposeProvider(p) && Close(c).log[|c.log| + 1] == DisposeProvider(p)
    ensures forall i :: |c.log| + 1 < i < |Close(c).log| ==> Close(c).log[i] != DisposeProvider(p)
  {
    var released := c.(frameProvider := None, log := c.log + [DisposeProvider(p), DisposeProvider(p)]);
    assert SetFrameProvider(c.(log := c.log + [DisposeProvider(p)]), None) == released;
    var d := Disconnect(released);
    assert Close(c) == d.(log := d.log + [RemovedFromClient]);
    assert d.log[..|released.log|] == released.log;
  }
}

/** `obsidian.bedrock.BedrockClient`: the connection map of one user. */
module BedrockClient {
  import opened Wrappers
  import opened KotlinInt
  import MC = MediaConnection

  type Connections = map<Long, MC.Connection>

  /** `createConnection`: the guild's connection, created only if absent. */
  function CreateConnection(m: Connections, guildId: Long): (r: (Connections, MC.Connection))
    ensures guildId in m ==> r == (m, m[guildId])
    ensures guildId !in m ==> r.1 == MC.New(guildId) && r.0 == m[guildId := r.1]
  {
    if guildId in m then (m, m[guildId]) else (m[guildId := MC.New(guildId)], MC.New(guildId))
  }

  /** `getConnection`: the mapped connection, or null. */
  function GetConnection(m: Connections, guildId: Long): (r: Option<MC.Connection>)
    ensures r.Some? <==> guildId in m
    ensures r.Some? ==> r.value == m[guildId]
  {
    if guildId in m then Some(m[guildId]) else None
  }

  /** `removeConnection`: the removed connection, if there was one; other
      guilds keep theirs. */
  function RemoveConnection(m: Connections, guildId: Long): (r: (Connections, Option<MC.Connection>))
    ensures r.1 == GetConnection(m, guildId)
    ensures guildId !in r.0 && r.0.Keys == m.Keys - {guildId}
    ensures forall g :: g in r.0 ==> r.0[g] == m[g]
  {
    (m - {guildId}, GetConnection(m, guildId))
  }

  /** Creating after the connection exists is a lookup; creating then
      removing leaves the map as it was when the guild had no connection. */
  lemma CreateRemoveInverse(m: Connections, guildId: Long)
    requires guildId !in m
    ensures RemoveConnection(CreateConnection(m, guildId).0, guildId) == (m, Some(MC.New(guildId)))
    ensures CreateConnection(CreateConnection(m, guildId).0, guildId) == CreateConnection(m, guildId)
  {
    assert CreateConnection(m, guildId).0 - {guildId} == m;
  }

  /** `destroyConnection`: removed first, then closed. */
  function DestroyConnection(m: Connections, guildId: Long): (r: (Connections, Option<MC.Connection>))
    ensures r.0 == RemoveConnection(m, guildId).0
    ensures r.1.Some? <==> guildId in m
    ensures r.1.Some? ==> r.1.value == MC.Close(m[guildId])
  {
    var (rest, removed) := RemoveConnection(m, guildId);
    match removed
    case None => (rest, None)
    case Some(c) => (rest, Some(MC.Close(c)))
  }

  /** `close`: every connection is removed and closed. */
  method Close(m: Connections) returns (rest: Connections, closed: Connections)
    ensures rest == map[]
    ensures closed.Keys == m.Keys
    ensures forall g :: g in closed ==> closed[g] == MC.Close(m[g])
  {
    rest := m;
    closed := map[];
    while rest.Keys != {}
      invariant rest.Keys <= m.Keys && closed.Keys == m.Keys - rest.Keys
      invariant forall g :: g in rest ==> rest[g] == m[g]
      invariant forall g :: g in closed ==> closed[g] == MC.Close(m[g])
      decreases rest.Keys
    {
      var g :| g in rest.Keys;
      var removal := RemoveConnection(rest, g);
      closed := closed[g := MC.Close(removal.1.value)];
      rest := removal.0;
    }
  }
}

/** `obsidian.bedrock.EventDispatcher`: a set of listeners that every
    Bedrock event is forwarded to. */
module EventDispatcher {
  import opened Wrappers
  import opened KotlinInt

  datatype Event =
    | GatewayReady(target: string, ssrc: Int)
    | GatewayClosed(code: Short, reason: Option<string>)
    | UserConnected(id: Option<string>, audioSsrc: Int, videoSsrc: Int, rtxSsrc: Int)
    | HeartbeatDispatched(nonce: Long)
    | HeartbeatAcknowledged(nonce: Long)

  /** `register`: true iff the listener was not yet registered. */
  function Register(listeners: set<nat>, l: nat): (r: (set<nat>, bool))
    ensures r.1 <==> l !in listeners
    ensures r.0 == listeners + {l}
  {
    (listeners + {l}, l !in listeners)
  }

  /** `unregister`: true iff the listener was registered. */
  function Unregister(listeners: set<nat>, l: nat): (r: (set<nat>, bool))
    ensures r.1 <==> l in listeners
    ensures r.0 == listeners - {l}
  {
    (listeners - {l}, l in listeners)
  }

  /** Unregistering undoes a registration that added the listener. */
  lemma UnregisterUndoesRegister(listeners: set<nat>, l: nat)
    requires l !in listeners
    ensures Unregister(Register(listeners, l).0, l) == (listeners, true)
  {
  }

  /** A second registration of the same listener changes nothing and
      reports false. */
  lemma RegisterTwice(listeners: set<nat>, l: nat)
    ensures var once := Register(listeners, l).0;
            Register(once, l) == (once, false)
  {
  }

  /** The listeners a list of deliveries reaches. */
  function Targets(deliveries: seq<(nat, Event)>): set<nat>
  {
    if deliveries == [] then {} else Targets(deliveries[..|deliveries| - 1]) + {deliveries[|deliveries| - 1].0}
  }

  lemma {:induction false} TargetsAreReceivers(deliveries: seq<(nat, Event)>, l: nat)
    ensures l in Targets(deliveries) <==> exists i :: 0 <= i < |deliveries| && deliveries[i].0 == l
  {
    if deliveries != [] {
      var init := deliveries[..|deliveries| - 1];
      TargetsAreReceivers(init, l);
      if exists i :: 0 <= i < |deliveries| && deliveries[i].0 == l {
        var i :| 0 <= i < |deliveries| && deliveries[i].0 == l;
        if i < |init| {
          assert init[i].0 == l;
        }
      }
      if exists i :: 0 <= i < |init| && init[i].0 == l {
        var i :| 0 <= i < |init| && init[i].0 == l;
        assert deliveries[i].0 == l;
      }
    }
  }

  /** Forwarding an event: each registered listener receives it exactly once. */
  method Dispatch(listeners: set<nat>, e: Event) returns (deliveries: seq<(nat, Event)>)
    ensures |deliveries| == |listeners|
    ensures Targets(deliveries) == listeners
    ensures forall i :: 0 <= i < |deliveries| ==> deliveries[i].1 == e
    ensures forall i, j :: 0 <= i < j < |deliveries| ==> deliveries[i].0 != deliveries[j].0
  {
    var left := listeners;
    deliveries := [];
    while left != {}
      invariant left <= listeners
      invariant |deliveries| + |left| == |listeners|
      invariant Targets(deliveries) == listeners - left
      invariant forall i :: 0 <= i < |deliveries| ==> deliveries[i].1 == e
      invariant forall i, j :: 0 <= i < j < |deliveries| ==> deliveries[i].0 != deliveries[j].0
      decreases |left|
    {
      var l :| l in left;
      forall i | 0 <= i < |deliveries|
        ensures deliveries[i].0 != l
      {
        TargetsAreReceivers(deliveries, deliveries[i].0);
      }
      var next := deliveries + [(l, e)];
      assert next[..|next| - 1] == deliveries;
      deliveries := next;
      left := left - {l};
    }
  }
}
