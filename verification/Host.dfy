/**
 * The operating system as the connection sees it: an effective firewall policy,
 * links, policy routing rules and per-link resolver overrides, changed only by
 * commands that may fail at any time without effect. Every command and every
 * deadline check is logged with the state it was issued in.
 */
module Hosts {
  import opened Results
  import opened Transports
  import P = Prefixes

  datatype TrafficPolicy = Disabled | BlockNonTunnel | TunnelOnly(interface: string)

  datatype Family = V4 | V6

  /** `mark` is the routing mark, which doubles as the table number. */
  datatype PolicyRule = NotFirewallMark(family: Family, mark: nat) | SuppressDefault(family: Family)

  datatype ResolverSetting = Servers(addresses: seq<P.IpAddr>) | RoutingDomain | DefaultRoute

  /** The far end of the tunnel, as the link is told about it. */
  datatype Peer = Peer(publicKey: seq<bv8>, endpoint: Endpoint, allowed: seq<P.AllowedIp>, keepalive: Option<nat>)

  datatype Override = Override(link: string, setting: ResolverSetting)

  /** A route without a destination is the default route; one without a table goes into the main table. */
  datatype Command =
    | ApplyPolicy(policy: TrafficPolicy)
    | LinkAdd(link: string)
    | LinkDelete(link: string)
    | LinkUp(link: string, mtu: nat)
    | WireGuardSet(link: string, mark: nat, peer: Peer)
    | AddressAdd(link: string, address: P.TunnelAddress)
    | RouteReplace(link: string, family: Family, destination: Option<P.AllowedIp>, table: Option<nat>)
    | RuleAdd(rule: PolicyRule)
    | RuleDelete(rule: PolicyRule)
    | ResolverSet(link: string, setting: ResolverSetting)
    | ResolverRevert(link: string)
    | Deadline
  {
    /** Commands that build or remove the tunnel and its routing. */
    predicate Tunnel() {
      !ApplyPolicy? && !ResolverSet? && !ResolverRevert? && !Deadline?
    }

    predicate Addition() {
      LinkAdd? || RuleAdd?
    }

    predicate Deletion() {
      LinkDelete? || RuleDelete?
    }

    /** The command that undoes an addition. */
    function Inverse(): (c: Command)
      requires Addition()
      ensures c.Deletion()
    {
      if LinkAdd? then LinkDelete(link) else RuleDelete(rule)
    }
  }

  /** `applied` are the policies the firewall has accepted so far. */
  datatype HostState = HostState(
    applied: seq<TrafficPolicy>,
    links: set<string>,
    rules: set<PolicyRule>,
    overrides: set<Override>)
  {
    /** The effective policy is the last one accepted; before any, nothing is filtered. */
    function Policy(): TrafficPolicy {
      if applied == [] then Disabled else applied[|applied| - 1]
    }
  }

  datatype Event = Event(command: Command, before: HostState, done: bool)

  /** A link or rule is added once and deleted only while it exists. */
  predicate Possible(s: HostState, c: Command) {
    match c
    case LinkAdd(link) => link !in s.links
    case LinkDelete(link) => link in s.links
    case RuleAdd(rule) => rule !in s.rules
    case RuleDelete(rule) => rule in s.rules
    case _ => true
  }

  function Effect(s: HostState, c: Command): HostState {
    match c
    case ApplyPolicy(policy) => s.(applied := s.applied + [policy])
    case LinkAdd(link) => s.(links := s.links + {link})
    case LinkDelete(link) => s.(links := s.links - {link})
    case RuleAdd(rule) => s.(rules := s.rules + {rule})
    case RuleDelete(rule) => s.(rules := s.rules - {rule})
    case ResolverSet(link, setting) => s.(overrides := s.overrides + {Override(link, setting)})
    case ResolverRevert(link) => s.(overrides := set o | o in s.overrides && o.link != link)
    case _ => s
  }

  /** `outcomes` decides, for each entry of the log, whether it succeeds if it is possible at all. */
  class Host {
    const outcomes: nat -> bool
    var state: HostState
    var trace: seq<Event>
    /** Completed additions and deletions, in order. */
    var added: seq<Command>
    var deleted: seq<Command>

    constructor (state: HostState, outcomes: nat -> bool)
      ensures this.state == state && trace == [] && added == [] && deleted == []
      ensures this.outcomes == outcomes
    {
      this.outcomes := outcomes;
      this.state := state;
      trace := [];
      added, deleted := [], [];
    }

    /** Nothing goes wrong between two entries of the log. */
    predicate Fine(from: nat, to: nat) {
      forall i :: from <= i < to ==> outcomes(i)
    }

    /** Nothing goes wrong any more. */
    ghost predicate FineFrom(from: nat) {
      forall i :: from <= i ==> outcomes(i)
    }

    /** At most one thing goes wrong. */
    ghost predicate OneFault(from: nat) {
      forall i, j :: from <= i < j ==> outcomes(i) || outcomes(j)
    }

    /** And after it nothing does. */
    lemma AfterFault(from: nat, n: nat)
      requires OneFault(from) && from <= n && !outcomes(n)
      ensures FineFrom(n + 1)
    {
    }

    /** Runs one command. It may fail for any reason, and then changes nothing. */
    method Run(c: Command) returns (ok: bool)
      modifies this
      ensures ok == (outcomes(|old(trace)|) && Possible(old(state), c))
      ensures state == if ok then Effect(old(state), c) else old(state)
      ensures trace == old(trace) + [Event(c, old(state), ok)]
      ensures added == old(added) + (if ok && c.Addition() then [c] else [])
      ensures deleted == old(deleted) + (if ok && c.Deletion() then [c] else [])
    {
      ok := outcomes(|trace|) && Possible(state, c);
      trace := trace + [Event(c, state, ok)];
      added := added + (if ok && c.Addition() then [c] else []);
      deleted := deleted + (if ok && c.Deletion() then [c] else []);
      if ok {
        state := Effect(state, c);
      }
    }

    /** A deadline or cancellation check: it may fail at any time. */
    method Check() returns (ok: bool)
      modifies this
      ensures ok == outcomes(|old(trace)|)
      ensures state == old(state) && added == old(added) && deleted == old(deleted)
      ensures trace == old(trace) + [Event(Deadline, old(state), ok)]
    {
      ok := Run(Deadline);
    }
  }

  /** The commands and checks of a log, in order. */
  function Commands(log: seq<Event>): (cs: seq<Command>)
    ensures |cs| == |log|
  {
    seq(|log|, i requires 0 <= i < |log| => log[i].command)
  }

  lemma CommandsMore(log: seq<Event>, e: Event)
    ensures Commands(log + [e]) == Commands(log) + [e.command]
  {
  }

  /** Undoing a list of additions: the inverse of each, last first. */
  function Undo(adds: seq<Command>): (cs: seq<Command>)
    requires forall c :: c in adds ==> c.Addition()
    ensures |cs| == |adds|
  {
    if adds == [] then []
    else [adds[|adds| - 1].Inverse()] + Undo(adds[..|adds| - 1])
  }

  lemma {:induction false} UndoConcat(a: seq<Command>, b: seq<Command>)
    requires forall c :: c in a + b ==> c.Addition()
    ensures forall c :: c in a ==> c.Addition()
    ensures forall c :: c in b ==> c.Addition()
    ensures Undo(a + b) == Undo(b) + Undo(a)
  {
    forall c | c in a ensures c.Addition() { assert c in a + b; }
    forall c | c in b ensures c.Addition() { assert c in a + b; }
    if b == [] {
      assert a + b == a;
    } else {
      assert (a + b)[..|a + b| - 1] == a + b[..|b| - 1];
      UndoConcat(a, b[..|b| - 1]);
    }
  }
}
