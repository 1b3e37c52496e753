/** The networked broadcast: failing and excluded servers, minimum responses, history and audit. */
module P2PNetwork {
  import opened Wrappers
  import opened Sequences
  import opened LedgerState
  import opened ExecutionEngine
  import opened StateManagement
  import opened Nodes
  import opened Consensus
  import opened Audit
  import opened Network
  import opened NodeHealth

  /** What the transport does with one request: answer, lose the request, or lose the answer. */
  datatype Delivery = Delivered(latency: int) | LostBefore | LostAfter

  /** A server and what happens to the request sent to it this round. */
  datatype Link = Link(server: Replica, delivery: Delivery)

  /** `NoAnswer` is any exception: no connection, a timeout, or an error reply. */
  datatype Response = Answer(result: NodeResult, latency: int) | NoAnswer

  datatype Contact = Contact(id: string, response: Response)

  datatype Config = Config(hashing: Hashing, threshold: Threshold, minResponses: int)

  datatype P2PState = P2PState(
    replicas: seq<Replica>,
    health: map<string, Health>,
    history: seq<HistoryEntry>,
    events: Option<seq<AuditEvent>>)

  // ------------------------------------------------------------------
  // Specification
  // ------------------------------------------------------------------

  /** `{s.node_id: s.public_key for s in servers}` */
  function KeysOf(servers: seq<Replica>): map<string, nat> {
    if servers == [] then map[]
    else
      var n := |servers| - 1;
      KeysOf(servers[..n])[servers[n].id := if servers[n].key.Some? then servers[n].key.value else 0]
  }

  /** Looking a server up registers it. */
  function Register(health: map<string, Health>, links: seq<Link>): map<string, Health> {
    if links == [] then health
    else
      var n := |links| - 1;
      var known := Register(health, links[..n]);
      known[links[n].server.id := Lookup(known, links[n].server.id)]
  }

  predicate IsExcluded(health: map<string, Health>, id: string) {
    Lookup(health, id).state.Excluded?
  }

  function Participating(health: map<string, Health>): Link -> bool {
    (l: Link) => !IsExcluded(health, l.server.id)
  }

  /** A contacted server that received the request has executed it, answered or not. */
  function Advance(h: Hashing, health: map<string, Health>, tx: Transaction): Link -> Replica {
    (l: Link) => if IsExcluded(health, l.server.id) || l.delivery.LostBefore? then l.server else ReplicaStep(h, l.server, tx)
  }

  /** What comes back: a refused transaction is an error reply like any other. */
  function ContactOf(h: Hashing, tx: Transaction): Link -> Contact {
    (l: Link) =>
      Contact(l.server.id,
              if l.delivery.Delivered? && Execute(l.server.managed.state, tx).Ok?
              then Answer(Report(h, ReplicaStep(h, l.server, tx)), l.delivery.latency)
              else NoAnswer)
  }

  function Gather(h: Hashing, health: map<string, Health>, links: seq<Link>, tx: Transaction): seq<Contact> {
    Map(ContactOf(h, tx), Filter(Participating(health), links))
  }

  function Note(health: map<string, Health>, c: Contact, now: int): map<string, Health> {
    var x := Lookup(health, c.id);
    health[c.id := if c.response.Answer? then OnSuccess(x, c.response.latency, now) else OnFailure(x, now)]
  }

  function NoteAll(health: map<string, Health>, contacts: seq<Contact>, now: int): map<string, Health> {
    if contacts == [] then health
    else Note(NoteAll(health, contacts[..|contacts| - 1], now), contacts[|contacts| - 1], now)
  }

  function Answers(contacts: seq<Contact>): (rs: seq<NodeResult>)
    ensures |rs| <= |contacts|
  {
    if contacts == [] then []
    else
      var last := contacts[|contacts| - 1].response;
      Answers(contacts[..|contacts| - 1]) + if last.Answer? then [last.result] else []
  }

  /** Everything after the responses are in; too few of them raise after health was noted. */
  ghost function ConcludeRound(cfg: Config, keys: map<string, nat>, s: P2PState, now: int, tx: Transaction, contacts: seq<Contact>): P2PState {
    var noted := NoteAll(s.health, contacts, now);
    var results := Answers(contacts);
    if |results| < cfg.minResponses then s.(health := noted)
    else
      var cr := Decide(results, keys, cfg.threshold);
      s.(health := noted,
         history := s.history + [HistoryEntry(tx, results, cr)],
         events := if s.events.None? then None else Some(Recorded(s.events.value, now, tx, results, cr)))
  }

  function Links(servers: seq<Replica>, deliveries: seq<Delivery>): (links: seq<Link>)
    requires |servers| == |deliveries|
    ensures |links| == |servers|
    ensures forall i :: 0 <= i < |links| ==> links[i] == Link(servers[i], deliveries[i])
  {
    seq(|servers|, i requires 0 <= i < |servers| => Link(servers[i], deliveries[i]))
  }

  datatype RoundInput = RoundInput(now: int, tx: Transaction, deliveries: seq<Delivery>)

  ghost function RoundStep(cfg: Config, keys: map<string, nat>, s: P2PState, input: RoundInput): P2PState
    requires |input.deliveries| == |s.replicas|
  {
    var links := Links(s.replicas, input.deliveries);
    var contacts := Gather(cfg.hashing, s.health, links, input.tx);
    var moved := Map(Advance(cfg.hashing, s.health, input.tx), links);
    ConcludeRound(cfg, keys, s.(replicas := moved, health := Register(s.health, links)), input.now, input.tx, contacts)
  }

  // ------------------------------------------------------------------
  // Implementation
  // ------------------------------------------------------------------

  /** The broadcaster.  `replicas` stands for the servers at the other end of the sockets. */
  class P2PNetwork {
    const config: Config
    const publicKeys: map<string, nat>
    const registry: NodeHealthRegistry
    const audit: AuditLog?
    var replicas: seq<Replica>
    var history: seq<HistoryEntry>

    ghost function Events(): Option<seq<AuditEvent>>
      reads audit
    {
      if audit == null then None else Some(audit.events)
    }

    ghost function View(): P2PState
      reads this, registry, audit
    {
      P2PState(replicas, registry.nodes, history, Events())
    }

    constructor (config: Config, servers: seq<Replica>, registry: NodeHealthRegistry, audit: AuditLog?)
      modifies registry
      ensures this.config == config && this.registry == registry && this.audit == audit
      ensures publicKeys == KeysOf(servers) && replicas == servers && history == []
      ensures forall id :: Lookup(registry.nodes, id) == Lookup(old(registry.nodes), id)
      ensures forall s :: s in servers ==> s.id in registry.nodes
    {
      this.config := config;
      this.publicKeys := KeysOf(servers);
      this.registry := registry;
      this.audit := audit;
      replicas := servers;
      history := [];
      new;
      for i := 0 to |servers|
        invariant forall id :: Lookup(registry.nodes, id) == Lookup(old(registry.nodes), id)
        invariant forall k :: 0 <= k < i ==> servers[k].id in registry.nodes
        invariant replicas == servers && history == []
      {
        var _ := registry.Get(servers[i].id);
      }
    }

    /** Splits the servers into those to contact and those excluded. */
    method SelectParticipants(links: seq<Link>) returns (participating: seq<Link>)
      modifies registry
      ensures participating == Filter(Participating(old(registry.nodes)), links)
      ensures registry.nodes == Register(old(registry.nodes), links)
    {
      participating := [];
      ghost var p := Participating(registry.nodes);
      for i := 0 to |links|
        invariant registry.nodes == Register(old(registry.nodes), links[..i])
        invariant participating == Filter(p, links[..i])
      {
        assert links[..i + 1] == links[..i] + [links[i]];
        FilterAppend(p, links[..i], links[i]);
        RegisterKeeps(old(registry.nodes), links[..i], links[i].server.id);
        var health := registry.Get(links[i].server.id);
        if health.state != Excluded {
          participating := participating + [links[i]];
        }
      }
      assert links[..|links|] == links;
    }

    /** Notes successes and failures and collects the answers. */
    method NoteResponses(contacts: seq<Contact>, now: int) returns (results: seq<NodeResult>)
      modifies registry
      ensures results == Answers(contacts)
      ensures registry.nodes == NoteAll(old(registry.nodes), contacts, now)
    {
      results := [];
      for i := 0 to |contacts|
        invariant results == Answers(contacts[..i])
        invariant registry.nodes == NoteAll(old(registry.nodes), contacts[..i], now)
      {
        var c := contacts[i];
        assert contacts[..i + 1][..i] == contacts[..i];
        if c.response.NoAnswer? {
          registry.RecordFailure(c.id, now);
          continue;
        }
        registry.RecordSuccess(c.id, c.response.latency, now);
        results := results + [c.response.result];
      }
      assert contacts[..|contacts|] == contacts;
    }

    /** The part of `broadcast` after the responses are in; `None` is `InsufficientQuorumError`. */
    method Conclude(now: int, tx: Transaction, contacts: seq<Contact>) returns (round: Option<HistoryEntry>)
      modifies this`history, registry, audit, if audit == null then null else audit.store
      ensures View() == ConcludeRound(config, publicKeys, old(View()), now, tx, contacts)
      ensures round.None? <==> |Answers(contacts)| < config.minResponses
      ensures round.Some? ==> round.value.results == Answers(contacts)
      ensures history == old(history) + if round.Some? then [round.value] else []
    {
      var results := NoteResponses(contacts, now);
      if |results| < config.minResponses {
        return None;
      }
      var cr := RunConsensus(results, publicKeys, config.threshold);
      var entry := HistoryEntry(tx, results, cr);
      history := history + [entry];
      if audit != null {
        var _ := audit.Record(now, tx, results, cr);
      }
      round := Some(entry);
    }

    method Broadcast(input: RoundInput) returns (round: Option<HistoryEntry>)
      requires |input.deliveries| == |replicas|
      modifies this, registry, audit, if audit == null then null else audit.store
      ensures View() == RoundStep(config, publicKeys, old(View()), input)
      ensures history == old(history) + if round.Some? then [round.value] else []
    {
      ghost var known := registry.nodes;
      var links := Links(replicas, input.deliveries);
      var participating := SelectParticipants(links);
      var contacts := Map(ContactOf(config.hashing, input.tx), participating);
      RegisterSame(known, links);
      replicas := Map(Advance(config.hashing, registry.nodes, input.tx), links);
      round := Conclude(input.now, input.tx, contacts);
    }
  }

  lemma {:induction false} RegisterKeeps(health: map<string, Health>, links: seq<Link>, id: string)
    ensures Lookup(Register(health, links), id) == Lookup(health, id)
    decreases |links|
  {
    if links != [] {
      RegisterKeeps(health, links[..|links| - 1], id);
      RegisterKeeps(health, links[..|links| - 1], links[|links| - 1].server.id);
    }
  }

  /** Registration does not change who is excluded, so servers move the same. */
  lemma {:induction false} RegisterSame(health: map<string, Health>, links: seq<Link>)
    ensures forall h, tx :: Map(Advance(h, Register(health, links), tx), links) == Map(Advance(h, health, tx), links)
  {
    forall h, tx ensures Map(Advance(h, Register(health, links), tx), links) == Map(Advance(h, health, tx), links) {
      forall i | 0 <= i < |links| ensures Advance(h, Register(health, links), tx)(links[i]) == Advance(h, health, tx)(links[i]) {
        RegisterKeeps(health, links, links[i].server.id);
      }
      MapSame(Advance(h, Register(health, links), tx), Advance(h, health, tx), links);
    }
  }
}
