/**
 * Rendering of kill-switch policies as nftables input, and what that input
 * means to a packet (core/killswitch/src/linux.rs).
 */
module Nftables {
  import opened Results
  import opened Hosts
  import opened Transports
  import P = Prefixes

  const TABLE := "cyberia_vpn"
  const CHAIN := "output"

  datatype NftablesError = InvalidInterface

  datatype Match = LeavesBy(interface: string) | UdpTo(address: P.IpAddr, port: nat)

  datatype Statement =
    | AddTable
    | FlushTable
    | DeleteTable
    | AddOutputChain
    | AddAccept(match_: Match)

  datatype NftablesConfig = NftablesConfig(endpoint: P.IpAddr, port: nat)

  /** The statements of one transaction. Only a tunnel policy can be refused. */
  function Render(config: NftablesConfig, policy: TrafficPolicy): (r: Result<seq<Statement>, NftablesError>)
    ensures r.Err? <==> policy.TunnelOnly? && !FilterName(policy.interface)
  {
    var start := [AddTable, FlushTable];
    if policy.Disabled? then Ok(start + [DeleteTable])
    else
      var rules := start + [AddOutputChain, AddAccept(LeavesBy("lo")), AddAccept(UdpTo(config.endpoint, config.port))];
      if policy.TunnelOnly? then
        if !FilterName(policy.interface) then Err(InvalidInterface)
        else Ok(rules + [AddAccept(LeavesBy(policy.interface))])
      else Ok(rules)
  }

  // --- The kernel's reading of the statements -------------------------------

  datatype Packet = Packet(interface: string, destination: P.IpAddr, udp: bool, port: nat)

  datatype Rule = Rule(match_: Match, accept: bool)

  /** `base` chains hang on the output hook and end in their policy; others are never entered. */
  datatype Chain = Chain(base: bool, accept: bool, rules: seq<Rule>)

  type Table = map<string, Chain>

  type Ruleset = map<string, Table>

  predicate Matches(m: Match, p: Packet) {
    match m
    case LeavesBy(name) => p.interface == name
    case UdpTo(address, port) => p.udp && p.destination == address && p.port == port
  }

  predicate ChainAccepts(c: Chain, p: Packet)
    decreases |c.rules|
  {
    if c.rules == [] then c.accept
    else if Matches(c.rules[0].match_, p) then c.rules[0].accept
    else ChainAccepts(c.(rules := c.rules[1..]), p)
  }

  /** A packet leaves when every base chain of the table accepts it. */
  ghost predicate Accepts(r: Ruleset, p: Packet) {
    TABLE in r ==> forall name :: name in r[TABLE] && r[TABLE][name].base ==> ChainAccepts(r[TABLE][name], p)
  }

  /** One statement; `None` is the kernel refusing it. */
  function Execute(r: Ruleset, s: Statement): Option<Ruleset> {
    match s
    case AddTable => Some(if TABLE in r then r else r[TABLE := map[]])
    case FlushTable =>
      if TABLE !in r then None
      else Some(r[TABLE := map name | name in r[TABLE] :: r[TABLE][name].(rules := [])])
    case DeleteTable =>
      if TABLE !in r then None else Some(r - {TABLE})
    case AddOutputChain =>
      if TABLE !in r then None
      else if CHAIN !in r[TABLE] then Some(r[TABLE := r[TABLE][CHAIN := Chain(true, false, [])]])
      else if !r[TABLE][CHAIN].base then None
      else Some(r[TABLE := r[TABLE][CHAIN := r[TABLE][CHAIN].(accept := false)]])
    case AddAccept(m) =>
      if TABLE !in r || CHAIN !in r[TABLE] then None
      else
        var c := r[TABLE][CHAIN];
        Some(r[TABLE := r[TABLE][CHAIN := c.(rules := c.rules + [Rule(m, true)])]])
  }

  /** A transaction takes effect as a whole or not at all. */
  function Transact(r: Ruleset, ss: seq<Statement>): Option<Ruleset>
    decreases |ss|
  {
    if ss == [] then Some(r)
    else
      match Execute(r, ss[0])
      case None => None
      case Some(next) => Transact(next, ss[1..])
  }

  // --- What a policy means --------------------------------------------------

  /** The traffic a policy allows. */
  predicate Allows(config: NftablesConfig, policy: TrafficPolicy, p: Packet) {
    match policy
    case Disabled => true
    case BlockNonTunnel => Essential(config, p)
    case TunnelOnly(name) => Essential(config, p) || p.interface == name
  }

  /** Loopback, and WireGuard's own datagrams to the endpoint. */
  predicate Essential(config: NftablesConfig, p: Packet) {
    p.interface == "lo" || (p.udp && p.destination == config.endpoint && p.port == config.port)
  }

  /** A leftover base chain that drops by default blocks whatever the rules say. */
  ghost predicate ForeignDrop(r: Ruleset) {
    TABLE in r && exists name :: name in r[TABLE] && name != CHAIN && r[TABLE][name].base && !r[TABLE][name].accept
  }

  /** The output chain cannot be created over a chain that is not on the hook. */
  predicate ChainTaken(r: Ruleset) {
    TABLE in r && CHAIN in r[TABLE] && !r[TABLE][CHAIN].base
  }

  function Flushed(r: Ruleset): Table {
    if TABLE in r then map name | name in r[TABLE] :: r[TABLE][name].(rules := []) else map[]
  }

  /** The owned table after a transaction that blocks, by chains. */
  function Blocking(prior: Ruleset, rules: seq<Rule>): Ruleset {
    prior[TABLE := Flushed(prior)[CHAIN := Chain(true, false, rules)]]
  }

  lemma TransactSteps(r: Ruleset, s: Statement, rest: seq<Statement>, ss: seq<Statement>)
    requires ss == [s] + rest
    ensures Transact(r, ss) == match Execute(r, s) case None => None case Some(next) => Transact(next, rest)
  {
  }

  /** Appending accept rules to a table that already blocks. */
  lemma {:induction false} AppendAccepts(prior: Ruleset, have: seq<Rule>, more: seq<Match>)
    ensures Transact(Blocking(prior, have), AcceptStatements(more)) == Some(Blocking(prior, have + AcceptRules(more)))
    decreases |more|
  {
    if more == [] {
      assert have + AcceptRules(more) == have;
    } else {
      var next := Blocking(prior, have + [Rule(more[0], true)]);
      assert Blocking(prior, have)[TABLE][CHAIN := Chain(true, false, have + [Rule(more[0], true)])] == next[TABLE];
      assert Execute(Blocking(prior, have), AddAccept(more[0])).value == next;
      TransactSteps(Blocking(prior, have), AddAccept(more[0]), AcceptStatements(more[1..]), AcceptStatements(more));
      AppendAccepts(prior, have + [Rule(more[0], true)], more[1..]);
      assert have + [Rule(more[0], true)] + AcceptRules(more[1..]) == have + AcceptRules(more);
    }
  }

  function AcceptStatements(ms: seq<Match>): (ss: seq<Statement>) {
    if ms == [] then [] else [AddAccept(ms[0])] + AcceptStatements(ms[1..])
  }

  function AcceptRules(ms: seq<Match>): (rs: seq<Rule>) {
    if ms == [] then [] else [Rule(ms[0], true)] + AcceptRules(ms[1..])
  }

  /** A chain of accept rules over a drop policy accepts what some rule matches. */
  lemma {:induction false} AcceptChain(ms: seq<Match>, p: Packet)
    ensures ChainAccepts(Chain(true, false, AcceptRules(ms)), p) <==> exists m :: m in ms && Matches(m, p)
    decreases |ms|
  {
    if ms == [] {
    } else {
      var c := Chain(true, false, AcceptRules(ms));
      assert c.rules[1..] == AcceptRules(ms[1..]);
      AcceptChain(ms[1..], p);
    }
  }

  function Allowed(config: NftablesConfig, policy: TrafficPolicy): (ms: seq<Match>)
    requires !policy.Disabled?
  {
    [LeavesBy("lo"), UdpTo(config.endpoint, config.port)]
    + (if policy.TunnelOnly? then [LeavesBy(policy.interface)] else [])
  }

  /** A blocking transaction leaves the owned table as `Blocking` describes, or is refused. */
  lemma TransactBlocks(config: NftablesConfig, policy: TrafficPolicy, prior: Ruleset)
    requires !policy.Disabled? && Render(config, policy).Ok?
    ensures Transact(prior, Render(config, policy).value) ==
            if ChainTaken(prior) then None else Some(Blocking(prior, AcceptRules(Allowed(config, policy))))
  {
    var ms := Allowed(config, policy);
    var accepts := AcceptStatements(ms);
    var ss := Render(config, policy).value;
    AcceptStatementsOf(ms);
    assert ss == [AddTable] + ([FlushTable] + ([AddOutputChain] + accepts));
    TransactSteps(prior, AddTable, [FlushTable] + ([AddOutputChain] + accepts), ss);
    var r1 := Execute(prior, AddTable).value;
    TransactSteps(r1, FlushTable, [AddOutputChain] + accepts, [FlushTable] + ([AddOutputChain] + accepts));
    var r2 := Execute(r1, FlushTable).value;
    TransactSteps(r2, AddOutputChain, accepts, [AddOutputChain] + accepts);
    if !ChainTaken(prior) {
      assert r2[TABLE] == Flushed(prior);
      assert Execute(r2, AddOutputChain).value[TABLE] == Blocking(prior, [])[TABLE];
      assert Execute(r2, AddOutputChain).value == Blocking(prior, []);
      AppendAccepts(prior, [], ms);
      assert [] + AcceptRules(ms) == AcceptRules(ms);
    }
  }

  /** Disabling removes the owned table. */
  lemma TransactDisables(config: NftablesConfig, prior: Ruleset)
    ensures Transact(prior, Render(config, Disabled).value) == Some(prior - {TABLE})
  {
    var ss := Render(config, Disabled).value;
    TransactSteps(prior, AddTable, [FlushTable, DeleteTable], ss);
    var r1 := Execute(prior, AddTable).value;
    TransactSteps(r1, FlushTable, [DeleteTable], [FlushTable, DeleteTable]);
    var r2 := Execute(r1, FlushTable).value;
    TransactSteps(r2, DeleteTable, [], [DeleteTable]);
    assert r2 - {TABLE} == prior - {TABLE};
  }

  lemma AcceptStatementsOf(ms: seq<Match>)
    requires 2 <= |ms| <= 3
    ensures |ms| == 2 ==> AcceptStatements(ms) == [AddAccept(ms[0]), AddAccept(ms[1])]
    ensures |ms| == 3 ==> AcceptStatements(ms) == [AddAccept(ms[0]), AddAccept(ms[1]), AddAccept(ms[2])]
  {
    var rest := ms[1..];
    assert AcceptStatements(rest[1..]) == if |ms| == 2 then [] else [AddAccept(ms[2])];
  }

  /**
   * From any prior ruleset, a transaction that is accepted leaves every other
   * table alone and lets a packet out exactly when the policy allows it and no
   * leftover chain drops it.
   */
  lemma RenderedMeaning(config: NftablesConfig, policy: TrafficPolicy, prior: Ruleset)
    requires Render(config, policy).Ok?
    ensures
      var after := Transact(prior, Render(config, policy).value);
      && (after.None? <==> !policy.Disabled? && ChainTaken(prior))
      && (after.Some? ==>
            && after.value - {TABLE} == prior - {TABLE}
            && forall p :: Accepts(after.value, p) <==>
                           Allows(config, policy, p) && (policy.Disabled? || !ForeignDrop(prior)))
  {
    if policy.Disabled? {
      TransactDisables(config, prior);
      assert prior - {TABLE} - {TABLE} == prior - {TABLE};
    } else {
      TransactBlocks(config, policy, prior);
      if !ChainTaken(prior) {
        forall p
          ensures Accepts(Blocking(prior, AcceptRules(Allowed(config, policy))), p) <==>
                  Allows(config, policy, p) && !ForeignDrop(prior)
        {
          BlockingAccepts(config, policy, prior, p);
        }
      }
    }
  }

  lemma BlockingAccepts(config: NftablesConfig, policy: TrafficPolicy, prior: Ruleset, p: Packet)
    requires !policy.Disabled?
    ensures Accepts(Blocking(prior, AcceptRules(Allowed(config, policy))), p) <==>
            Allows(config, policy, p) && !ForeignDrop(prior)
  {
    var ms := Allowed(config, policy);
    AcceptChain(ms, p);
    assert ms[0] in ms && ms[1] in ms && (policy.TunnelOnly? ==> ms[2] in ms);
    assert forall m :: m in ms ==> m == ms[0] || m == ms[1] || (policy.TunnelOnly? && m == ms[2]);
    var after := Blocking(prior, AcceptRules(ms));
    assert after[TABLE][CHAIN] == Chain(true, false, AcceptRules(ms));
    if TABLE in prior {
      forall name | name in prior[TABLE] && name != CHAIN
        ensures after[TABLE][name] == prior[TABLE][name].(rules := [])
      {
      }
    }
  }

  /** So the rules mean the policy exactly when nothing else in the owned table drops by default. */
  lemma RenderedMeaningExact(config: NftablesConfig, policy: TrafficPolicy, prior: Ruleset)
    requires !policy.Disabled? && Render(config, policy).Ok? && !ChainTaken(prior)
    ensures Transact(prior, Render(config, policy).value).Some?
    ensures
      var after := Transact(prior, Render(config, policy).value).value;
      (forall p :: Accepts(after, p) <==> Allows(config, policy, p)) <==> !ForeignDrop(prior)
  {
    RenderedMeaning(config, policy, prior);
    var loopback := Packet("lo", config.endpoint, false, 0);
    assert Allows(config, policy, loopback);
  }

  /** A leftover chain that makes the rules block even loopback. */
  lemma LeftoverChainBlocks(config: NftablesConfig)
    ensures
      var prior: Ruleset := map[TABLE := map["stale" := Chain(true, false, [])]];
      var after := Transact(prior, Render(config, BlockNonTunnel).value);
      var loopback := Packet("lo", config.endpoint, false, 0);
      after.Some? && Allows(config, BlockNonTunnel, loopback) && !Accepts(after.value, loopback)
  {
    var prior: Ruleset := map[TABLE := map["stale" := Chain(true, false, [])]];
    assert "stale" in prior[TABLE] && prior[TABLE]["stale"].base && !prior[TABLE]["stale"].accept;
    RenderedMeaning(config, BlockNonTunnel, prior);
  }

  // --- Over a whole run -----------------------------------------------------

  /** Applies policies one after another; a refused one leaves the ruleset as it was. */
  function ApplyAll(config: NftablesConfig, r: Ruleset, policies: seq<TrafficPolicy>): Ruleset
    decreases |policies|
  {
    if policies == [] then r
    else
      var n := |policies| - 1;
      var before := ApplyAll(config, r, policies[..n]);
      match Render(config, policies[n])
      case Err(_) => before
      case Ok(ss) => match Transact(before, ss) case None => before case Some(after) => after
  }

  /** The owned table holds nothing but the output chain. */
  ghost predicate Owned(r: Ruleset) {
    TABLE in r ==> r[TABLE].Keys == {CHAIN} && r[TABLE][CHAIN].base
  }

  /**
   * Starting without the owned table, after any policies the last one rendered
   * is what packets see, and other tables were never touched.
   */
  lemma {:induction false} RunMeansLastPolicy(config: NftablesConfig, r: Ruleset, policies: seq<TrafficPolicy>)
    requires TABLE !in r
    ensures
      var after := ApplyAll(config, r, policies);
      && Owned(after)
      && after - {TABLE} == r
      && (policies != [] && Render(config, policies[|policies| - 1]).Ok? ==>
            forall p :: Accepts(after, p) <==> Allows(config, policies[|policies| - 1], p))
    decreases |policies|
  {
    if policies == [] {
      assert r - {TABLE} == r;
    } else {
      var n := |policies| - 1;
      RunMeansLastPolicy(config, r, policies[..n]);
      var before := ApplyAll(config, r, policies[..n]);
      var policy := policies[n];
      if Render(config, policy).Ok? {
        RenderedMeaning(config, policy, before);
        if policy.Disabled? {
          TransactDisables(config, before);
        } else {
          TransactBlocks(config, policy, before);
          assert Flushed(before).Keys <= {CHAIN};
          assert Blocking(before, AcceptRules(Allowed(config, policy)))[TABLE].Keys == {CHAIN};
        }
      }
    }
  }

  /** On a host that started without the owned table, packets see exactly the effective policy. */
  ghost predicate Enforced(config: NftablesConfig, s: HostState) {
    forall r: Ruleset, p: Packet :: TABLE !in r ==>
      (Accepts(ApplyAll(config, r, s.applied), p) <==> Allows(config, s.Policy(), p))
  }

  lemma EffectiveIsEnforced(config: NftablesConfig, s: HostState)
    requires Render(config, s.Policy()).Ok?
    ensures Enforced(config, s)
  {
    forall r: Ruleset, p: Packet | TABLE !in r
      ensures Accepts(ApplyAll(config, r, s.applied), p) <==> Allows(config, s.Policy(), p)
    {
      RunMeansLastPolicy(config, r, s.applied);
    }
  }

  /** Every name the transport accepts, the firewall accepts. */
  lemma LinkNameRenders(config: NftablesConfig, name: string)
    requires LinkName(name)
    ensures FilterName(name) && Render(config, TunnelOnly(name)).Ok?
  {
  }
}
