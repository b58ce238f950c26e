/**
 * The Linux WireGuard backend (core/transport/src/linux.rs).
 *
 * The backend keeps a ledger of the policy rules it installed. A rollback that
 * fails drops the ledger, so the backend also tracks, for the proof only, what
 * was left behind.
 */
module Tunnels {
  import opened Results
  import opened Hosts
  import opened Transports
  import opened Sets
  import P = Prefixes

  function FamilyOf(a: P.IpAddr): Family {
    if a.V4? then V4 else V6
  }

  /** A default prefix is reached through two policy rules; any other needs none. */
  function RulesFor(p: P.AllowedIp, mark: nat): (rules: seq<PolicyRule>)
  {
    if p.length != 0 then []
    else [NotFirewallMark(FamilyOf(p.network), mark), SuppressDefault(FamilyOf(p.network))]
  }

  /** The policy rules a list of prefixes installs, in installation order. */
  function RulePlan(allowed: seq<P.AllowedIp>, mark: nat): (plan: seq<PolicyRule>)
  {
    if allowed == [] then []
    else RulePlan(allowed[..|allowed| - 1], mark) + RulesFor(allowed[|allowed| - 1], mark)
  }

  function Elements(rules: seq<PolicyRule>): set<PolicyRule> {
    set r | r in rules
  }

  /** The commands that install these rules, in order. */
  function RuleAdds(rules: seq<PolicyRule>): (cs: seq<Command>)
    ensures forall c :: c in cs ==> c.Addition()
  {
    if rules == [] then [] else RuleAdds(rules[..|rules| - 1]) + [RuleAdd(rules[|rules| - 1])]
  }

  /** The commands that remove these rules, last installed first. */
  function RuleDeletes(rules: seq<PolicyRule>): (cs: seq<Command>)
  {
    if rules == [] then [] else RuleDeletes(rules[1..]) + [RuleDelete(rules[0])]
  }

  /** How many commands and checks a successful configuration takes. */
  function ConfigureOps(profile: Profile): nat {
    4 + 2 * |profile.addresses|
  }

  function RouteOpsFor(p: P.AllowedIp): nat {
    if p.length != 0 then 2 else 4
  }

  /** How many commands and checks successful routing takes. */
  function RouteOps(allowed: seq<P.AllowedIp>): nat {
    if allowed == [] then 0 else RouteOps(allowed[..|allowed| - 1]) + RouteOpsFor(allowed[|allowed| - 1])
  }

  /** And all of it, once the link exists. */
  function SetUpOps(profile: Profile): nat {
    ConfigureOps(profile) + RouteOps(profile.allowed)
  }

  /** What bringing up one prefix takes: a route, and for a default prefix its own table and two rules. */
  function RouteScriptFor(link: string, p: P.AllowedIp, mark: nat): (cs: seq<Command>)
    ensures |cs| == RouteOpsFor(p)
  {
    var family := if p.network.V4? then V4 else V6;
    if p.length != 0 then [Deadline, RouteReplace(link, family, Some(p), None)]
    else [Deadline, RouteReplace(link, family, None, Some(mark)),
          RuleAdd(NotFirewallMark(family, mark)), RuleAdd(SuppressDefault(family))]
  }

  function RouteScript(link: string, allowed: seq<P.AllowedIp>, mark: nat): (cs: seq<Command>)
    ensures |cs| == RouteOps(allowed)
  {
    if allowed == [] then []
    else RouteScript(link, allowed[..|allowed| - 1], mark) + RouteScriptFor(link, allowed[|allowed| - 1], mark)
  }

  function AddressScript(link: string, addresses: seq<P.TunnelAddress>): (cs: seq<Command>)
    ensures |cs| == 2 * |addresses|
  {
    if addresses == [] then []
    else AddressScript(link, addresses[..|addresses| - 1]) + [Deadline, AddressAdd(link, addresses[|addresses| - 1])]
  }

  function PeerOf(profile: Profile): Peer {
    Peer(profile.publicKey, profile.endpoint, profile.allowed, profile.keepalive)
  }

  function ConfigureScript(link: string, profile: Profile, mark: nat): (cs: seq<Command>)
    ensures |cs| == ConfigureOps(profile)
  {
    [Deadline, WireGuardSet(link, mark, PeerOf(profile))] + AddressScript(link, profile.addresses)
    + [Deadline, LinkUp(link, profile.mtu)]
  }

  /** Every command and check of a successful setup, in order, once the link exists. */
  function SetUpScript(link: string, profile: Profile, mark: nat): (cs: seq<Command>)
    ensures |cs| == SetUpOps(profile)
  {
    ConfigureScript(link, profile, mark) + RouteScript(link, profile.allowed, mark)
  }

  /** And of a whole successful bring-up. */
  function BringUpScript(link: string, profile: Profile, mark: nat): (cs: seq<Command>)
    ensures |cs| == 2 + SetUpOps(profile)
  {
    [Deadline, LinkAdd(link)] + SetUpScript(link, profile, mark)
  }

  /** The plan repeats nothing and none of it is in the kernel yet. */
  ghost predicate Installable(plan: seq<PolicyRule>, kernel: set<PolicyRule>) {
    Distinct(plan) && forall r :: r in plan ==> r !in kernel
  }

  /** What exists on the host and is not the backend's to remove. */
  datatype Foreign = Foreign(links: set<string>, rules: set<PolicyRule>)

  /** A tunnel command, issued under this policy and these overrides, that spares foreign state. */
  ghost predicate TunnelEvent(e: Event, policy: TrafficPolicy, overrides: set<Override>, foreign: Foreign) {
    && (e.command.Tunnel() || e.command.Deadline?)
    && e.before.Policy() == policy
    && e.before.overrides == overrides
    && (e.command.LinkDelete? ==> e.command.link !in foreign.links)
    && (e.command.RuleDelete? ==> e.command.rule !in foreign.rules)
  }

  /** The log grew from `was` to `log` by exactly these commands and checks. */
  ghost predicate Issued(was: seq<Event>, log: seq<Event>, cs: seq<Command>) {
    Commands(log) == Commands(was) + cs
  }

  lemma IssuedMore(was: seq<Event>, log: seq<Event>, more: seq<Event>, cs: seq<Command>, ds: seq<Command>)
    requires Issued(was, log, cs) && Issued(log, more, ds)
    ensures Issued(was, more, cs + ds)
  {
  }

  /** The log grew from `was` to `log` by such commands only. */
  ghost predicate Grew(was: seq<Event>, log: seq<Event>,
                       policy: TrafficPolicy, overrides: set<Override>, foreign: Foreign)
  {
    was <= log && forall k :: |was| <= k < |log| ==> TunnelEvent(log[k], policy, overrides, foreign)
  }

  lemma GrewMore(was: seq<Event>, log: seq<Event>, more: seq<Event>,
                 policy: TrafficPolicy, overrides: set<Override>, foreign: Foreign)
    requires Grew(was, log, policy, overrides, foreign) && Grew(log, more, policy, overrides, foreign)
    ensures Grew(was, more, policy, overrides, foreign)
  {
  }

  class LinuxBackend {
    const host: Host
    const mark: nat
    var activeRules: seq<PolicyRule>
    var activeInterface: Option<string>

    ghost const foreign: Foreign
    ghost var leakedRules: seq<PolicyRule>
    ghost var leakedLinks: set<string>

    constructor (host: Host, mark: nat)
      ensures this.host == host && this.mark == mark
      ensures activeRules == [] && activeInterface == None
      ensures leakedRules == [] && leakedLinks == {}
      ensures foreign == Foreign(host.state.links, host.state.rules)
      ensures Valid()
    {
      this.host := host;
      this.mark := mark;
      activeRules := [];
      activeInterface := None;
      foreign := Foreign(host.state.links, host.state.rules);
      leakedRules := [];
      leakedLinks := {};
    }

    /** How far the log has come. */
    ghost function Now(): nat
      reads host
    {
      |host.trace|
    }

    ghost function ActiveLinks(): set<string>
      reads this
    {
      if activeInterface.Some? then {activeInterface.value} else {}
    }

    /** What the backend put into the kernel and is still there, oldest first. */
    ghost function OwnedRules(): seq<PolicyRule>
      reads this
    {
      leakedRules + activeRules
    }

    /** The kernel holds what was there before, plus exactly what the backend owns. */
    ghost predicate Valid()
      reads this, host
    {
      && OwnsRules(host.state.rules, OwnedRules(), foreign.rules)
      && leakedLinks !! foreign.links
      && ActiveLinks() !! leakedLinks + foreign.links
      && host.state.links == foreign.links + leakedLinks + ActiveLinks()
      && (activeInterface.None? ==> activeRules == [])
    }

    method Command(c: Command) returns (r: Outcome<TransportError>)
      modifies host
      ensures r.Pass? == (host.outcomes(old(Now())) && Possible(old(host.state), c))
      ensures r.Fail? ==> r.error == Network
      ensures host.state == if r.Pass? then Effect(old(host.state), c) else old(host.state)
      ensures host.trace == old(host.trace) + [Event(c, old(host.state), r.Pass?)]
      ensures host.added == old(host.added) + (if r.Pass? && c.Addition() then [c] else [])
      ensures host.deleted == old(host.deleted) + (if r.Pass? && c.Deletion() then [c] else [])
      ensures Issued(old(host.trace), host.trace, [c])
    {
      var ok := host.Run(c);
      CommandsMore(old(host.trace), Event(c, old(host.state), ok));
      r := if ok then Pass else Fail(Network);
    }

    method Check() returns (r: Outcome<TransportError>)
      modifies host
      ensures r.Pass? == host.outcomes(old(Now()))
      ensures host.state == old(host.state) && host.added == old(host.added) && host.deleted == old(host.deleted)
      ensures host.trace == old(host.trace) + [Event(Deadline, old(host.state), r.Pass?)]
      ensures Issued(old(host.trace), host.trace, [Deadline])
    {
      var ok := host.Check();
      CommandsMore(old(host.trace), Event(Deadline, old(host.state), ok));
      r := if ok then Pass else Fail(Cancelled);
    }

    /** Keys, addresses and the link itself: nothing the ledger records. */
    method Configure(link: string, profile: Profile) returns (r: Outcome<TransportError>)
      modifies host
      ensures host.state == old(host.state)
      ensures Grew(old(host.trace), host.trace, host.state.Policy(), host.state.overrides, foreign)
      ensures host.added == old(host.added)
      ensures host.deleted == old(host.deleted)
      ensures r.Pass? ==> Issued(old(host.trace), host.trace, ConfigureScript(link, profile, mark))
      ensures r.Fail? ==> old(Now()) < Now() && !host.outcomes(Now() - 1)
      ensures host.Fine(old(Now()), old(Now()) + ConfigureOps(profile)) ==> r.Pass?
      ensures !host.outcomes(old(Now())) ==> r.Fail? && Now() == old(Now()) + 1
    {
      var first := WireGuardSet(link, mark, PeerOf(profile));
      r := Checked(first);
      if r.Fail? { return; }
      ghost var script := [Deadline, first];
      assert script + AddressScript(link, []) == script;
      for i := 0 to |profile.addresses|
        invariant host.state == old(host.state)
        invariant Grew(old(host.trace), host.trace, host.state.Policy(), host.state.overrides, foreign)
        invariant host.added == old(host.added) && host.deleted == old(host.deleted)
        invariant Issued(old(host.trace), host.trace, script + AddressScript(link, profile.addresses[..i]))
        invariant host.outcomes(old(Now()))
      {
        ghost var log := host.trace;
        r := Checked(AddressAdd(link, profile.addresses[i]));
        GrewMore(old(host.trace), log, host.trace, host.state.Policy(), host.state.overrides, foreign);
        if r.Fail? { return; }
        AddressScriptMore(script, link, profile.addresses, i);
        IssuedMore(old(host.trace), log, host.trace, script + AddressScript(link, profile.addresses[..i]),
                   [Deadline, AddressAdd(link, profile.addresses[i])]);
      }
      assert profile.addresses[..|profile.addresses|] == profile.addresses;
      ghost var log := host.trace;
      r := Checked(LinkUp(link, profile.mtu));
      GrewMore(old(host.trace), log, host.trace, host.state.Policy(), host.state.overrides, foreign);
      if r.Pass? {
        IssuedMore(old(host.trace), log, host.trace, script + AddressScript(link, profile.addresses),
                   [Deadline, LinkUp(link, profile.mtu)]);
      }
    }

    /** A deadline check and then a command that changes nothing the host state records. */
    method Checked(c: Command) returns (r: Outcome<TransportError>)
      requires c.WireGuardSet? || c.AddressAdd? || c.LinkUp? || c.RouteReplace?
      modifies host
      ensures host.state == old(host.state) && host.added == old(host.added) && host.deleted == old(host.deleted)
      ensures Grew(old(host.trace), host.trace, host.state.Policy(), host.state.overrides, foreign)
      ensures r.Pass? == host.Fine(old(Now()), old(Now()) + 2)
      ensures Now() == old(Now()) + if host.outcomes(old(Now())) then 2 else 1
      ensures if r.Pass? then Issued(old(host.trace), host.trace, [Deadline, c]) else !host.outcomes(Now() - 1)
    {
      r := Check();
      if r.Fail? { return; }
      r := Command(c);
    }

    /** Adds one rule and records it. */
    method AddRule(rule: PolicyRule, installed: seq<PolicyRule>, ghost kept: set<PolicyRule>, ghost prior: seq<Command>)
      returns (r: Outcome<TransportError>, now: seq<PolicyRule>)
      requires OwnsRules(host.state.rules, installed, kept)
      requires host.added == prior + RuleAdds(installed)
      modifies host
      ensures host.state == old(host.state).(rules := host.state.rules)
      ensures now == if r.Pass? then installed + [rule] else installed
      ensures OwnsRules(host.state.rules, now, kept)
      ensures Grew(old(host.trace), host.trace, host.state.Policy(), host.state.overrides, foreign)
      ensures Issued(old(host.trace), host.trace, [RuleAdd(rule)])
      ensures host.added == prior + RuleAdds(now)
      ensures host.deleted == old(host.deleted)
      ensures r.Pass? == (host.outcomes(old(Now())) && rule !in old(host.state.rules))
      ensures r.Pass? ==> host.state.rules == old(host.state.rules) + {rule}
    {
      r := Command(RuleAdd(rule));
      if r.Pass? { OwnsRulesPush(old(host.state.rules), installed, kept, rule); }
      RuleAddsMore(prior, installed, rule);
      now := if r.Pass? then installed + [rule] else installed;
    }

    /** The two rules that send unmarked traffic to the tunnel's own table. */
    method AddDefaultRules(family: Family, installed: seq<PolicyRule>,
                           ghost kept: set<PolicyRule>, ghost prior: seq<Command>)
      returns (r: Outcome<TransportError>, now: seq<PolicyRule>)
      requires OwnsRules(host.state.rules, installed, kept)
      requires host.added == prior + RuleAdds(installed)
      modifies host
      ensures host.state == old(host.state).(rules := host.state.rules)
      ensures OwnsRules(host.state.rules, now, kept)
      ensures
        var first, second := NotFirewallMark(family, mark), SuppressDefault(family);
        if r.Pass? then now == installed + [first, second]
        else now == installed || now == installed + [first]
      ensures Grew(old(host.trace), host.trace, host.state.Policy(), host.state.overrides, foreign)
      ensures host.added == prior + RuleAdds(now)
      ensures host.deleted == old(host.deleted)
      ensures
        var first, second := NotFirewallMark(family, mark), SuppressDefault(family);
        if r.Pass? then Issued(old(host.trace), host.trace, [RuleAdd(first), RuleAdd(second)])
        else
          && old(Now()) < Now() <= old(Now()) + 2
          && (!host.outcomes(Now() - 1) || first in old(host.state.rules) || second in old(host.state.rules))
    {
      var first, second := NotFirewallMark(family, mark), SuppressDefault(family);
      assert installed + [first] + [second] == installed + [first, second];
      r, now := AddRule(first, installed, kept, prior);
      if r.Fail? { return; }
      ghost var log := host.trace;
      r, now := AddRule(second, now, kept, prior);
      IssuedMore(old(host.trace), log, host.trace, [RuleAdd(first)], [RuleAdd(second)]);
    }

    /** Routes one prefix. A default prefix goes into its own table. */
    method InstallRoute(link: string, p: P.AllowedIp, installed: seq<PolicyRule>,
                        ghost kept: set<PolicyRule>, ghost prior: seq<Command>)
      returns (r: Outcome<TransportError>, now: seq<PolicyRule>)
      requires OwnsRules(host.state.rules, installed, kept)
      requires host.added == prior + RuleAdds(installed)
      modifies host
      ensures host.state == old(host.state).(rules := host.state.rules)
      ensures OwnsRules(host.state.rules, now, kept)
      ensures installed <= now <= installed + RulesFor(p, mark)
      ensures r.Pass? ==> now == installed + RulesFor(p, mark)
      ensures Grew(old(host.trace), host.trace, host.state.Policy(), host.state.overrides, foreign)
      ensures host.added == prior + RuleAdds(now)
      ensures host.deleted == old(host.deleted)
      ensures r.Pass? ==> Issued(old(host.trace), host.trace, RouteScriptFor(link, p, mark))
      ensures r.Fail? ==>
        && old(Now()) < Now() <= old(Now()) + RouteOpsFor(p)
        && (!host.outcomes(Now() - 1) || exists rule :: rule in RulesFor(p, mark) && rule in old(host.state.rules))
    {
      now := installed;
      var family := FamilyOf(p.network);
      var route := if p.length != 0 then RouteReplace(link, family, Some(p), None)
        else RouteReplace(link, family, None, Some(mark));
      r := Checked(route);
      if r.Fail? || p.length != 0 { return; }
      ghost var log, first, second := host.trace, NotFirewallMark(family, mark), SuppressDefault(family);
      assert RulesFor(p, mark) == [first, second];
      assert RouteScriptFor(link, p, mark) == [Deadline, route] + [RuleAdd(first), RuleAdd(second)];
      r, now := AddDefaultRules(family, now, kept, prior);
      GrewMore(old(host.trace), log, host.trace, host.state.Policy(), host.state.overrides, foreign);
      if r.Pass? {
        IssuedMore(old(host.trace), log, host.trace, [Deadline, route], [RuleAdd(first), RuleAdd(second)]);
      }
      assert first in RulesFor(p, mark) && second in RulesFor(p, mark);
    }

    /** Routes the next prefix of several. */
    method InstallNext(link: string, allowed: seq<P.AllowedIp>, i: nat, installed: seq<PolicyRule>,
                       ghost kept: set<PolicyRule>, ghost prior: seq<Command>)
      returns (r: Outcome<TransportError>, now: seq<PolicyRule>)
      requires i < |allowed| && installed == RulePlan(allowed[..i], mark)
      requires OwnsRules(host.state.rules, installed, kept) && host.added == prior + RuleAdds(installed)
      modifies host
      ensures host.state == old(host.state).(rules := host.state.rules)
      ensures OwnsRules(host.state.rules, now, kept) && now <= RulePlan(allowed, mark)
      ensures r.Pass? ==> now == RulePlan(allowed[..i + 1], mark)
      ensures Grew(old(host.trace), host.trace, host.state.Policy(), host.state.overrides, foreign)
      ensures host.added == prior + RuleAdds(now) && host.deleted == old(host.deleted)
      ensures r.Pass? ==> Issued(old(host.trace), host.trace, RouteScriptFor(link, allowed[i], mark))
      ensures RouteOps(allowed[..i]) + RouteOpsFor(allowed[i]) <= RouteOps(allowed)
      ensures r.Fail? && Installable(RulePlan(allowed, mark), kept) ==>
        old(Now()) < Now() <= old(Now()) + RouteOpsFor(allowed[i]) && !host.outcomes(Now() - 1)
    {
      PlanPrefix(allowed, i, mark);
      RouteOpsPrefix(allowed, i);
      if Installable(RulePlan(allowed, mark), kept) {
        NextIsFree(RulePlan(allowed, mark), installed, RulesFor(allowed[i], mark), host.state.rules, kept);
      }
      r, now := InstallRoute(link, allowed[i], installed, kept, prior);
    }

    /**
     * Installs routes and default-route rules. On success the whole plan is in
     * the kernel; on failure some prefix of it is, and `installed` says which.
     */
    method InstallRoutes(link: string, profile: Profile)
      returns (r: Outcome<TransportError>, installed: seq<PolicyRule>)
      modifies host
      ensures host.state == old(host.state).(rules := host.state.rules)
      ensures OwnsRules(host.state.rules, installed, old(host.state.rules))
      ensures installed <= RulePlan(profile.allowed, mark)
      ensures r.Pass? ==> installed == RulePlan(profile.allowed, mark)
      ensures Grew(old(host.trace), host.trace, host.state.Policy(), host.state.overrides, foreign)
      ensures host.added == old(host.added) + RuleAdds(installed)
      ensures host.deleted == old(host.deleted)
      ensures r.Pass? ==> Issued(old(host.trace), host.trace, RouteScript(link, profile.allowed, mark))
      ensures r.Fail? && Installable(RulePlan(profile.allowed, mark), old(host.state.rules)) ==>
        old(Now()) < Now() && !host.outcomes(Now() - 1)
      ensures
        && host.Fine(old(Now()), old(Now()) + RouteOps(profile.allowed))
        && Installable(RulePlan(profile.allowed, mark), old(host.state.rules))
        ==> r.Pass?
    {
      installed := [];
      for i := 0 to |profile.allowed|
        invariant host.state == old(host.state).(rules := host.state.rules)
        invariant OwnsRules(host.state.rules, installed, old(host.state.rules))
        invariant installed == RulePlan(profile.allowed[..i], mark)
        invariant Grew(old(host.trace), host.trace, host.state.Policy(), host.state.overrides, foreign)
        invariant host.added == old(host.added) + RuleAdds(installed)
        invariant host.deleted == old(host.deleted)
        invariant Issued(old(host.trace), host.trace, RouteScript(link, profile.allowed[..i], mark))
      {
        ghost var log := host.trace;
        r, installed := InstallNext(link, profile.allowed, i, installed, old(host.state.rules), old(host.added));
        GrewMore(old(host.trace), log, host.trace, host.state.Policy(), host.state.overrides, foreign);
        if r.Fail? { return; }
        RouteScriptMore(link, profile.allowed, mark, i);
        IssuedMore(old(host.trace), log, host.trace, RouteScript(link, profile.allowed[..i], mark),
                   RouteScriptFor(link, profile.allowed[i], mark));
      }
      assert profile.allowed[..|profile.allowed|] == profile.allowed;
      r := Pass;
    }

    /** Deletes the last rule of a ledger. */
    method RemoveLast(rules: seq<PolicyRule>, ghost kept: set<PolicyRule>)
      returns (r: Outcome<TransportError>)
      requires rules != [] && OwnsRules(host.state.rules, rules, kept) && foreign.rules <= kept
      modifies host
      ensures host.state == old(host.state).(rules := host.state.rules)
      ensures OwnsRules(host.state.rules, if r.Pass? then rules[..|rules| - 1] else rules, kept)
      ensures Grew(old(host.trace), host.trace, host.state.Policy(), host.state.overrides, foreign)
      ensures Now() == old(Now()) + 1
      ensures host.added == old(host.added)
      ensures host.deleted == old(host.deleted) + (if r.Pass? then [RuleDelete(rules[|rules| - 1])] else [])
      ensures r.Pass? == host.outcomes(old(Now())) && (r.Fail? ==> r.error == Network)
    {
      OwnsRulesLast(host.state.rules, rules, kept);
      r := Command(RuleDelete(rules[|rules| - 1]));
    }

    /** Deletes rules last-installed first, stopping at the first failure. */
    method RemovePolicyRules(rules: seq<PolicyRule>, ghost kept: set<PolicyRule>)
      returns (r: Outcome<TransportError>, left: seq<PolicyRule>)
      requires OwnsRules(host.state.rules, rules, kept)
      requires foreign.rules <= kept
      modifies host
      ensures host.state == old(host.state).(rules := host.state.rules)
      ensures left <= rules && (r.Pass? <==> left == [])
      ensures OwnsRules(host.state.rules, left, kept)
      ensures Grew(old(host.trace), host.trace, host.state.Policy(), host.state.overrides, foreign)
      ensures host.added == old(host.added)
      ensures host.deleted == old(host.deleted) + RuleDeletes(rules[|left|..])
      ensures host.FineFrom(old(Now())) ==> r.Pass?
      ensures r.Fail? ==> r.error == Network
      ensures rules == [] ==> host.trace == old(host.trace)
    {
      left := rules;
      while left != []
        invariant host.state == old(host.state).(rules := host.state.rules)
        invariant left <= rules
        invariant OwnsRules(host.state.rules, left, kept)
        invariant Grew(old(host.trace), host.trace, host.state.Policy(), host.state.overrides, foreign)
        invariant host.added == old(host.added)
        invariant host.deleted == old(host.deleted) + RuleDeletes(rules[|left|..])
        invariant rules == [] ==> host.trace == old(host.trace)
        decreases |left|
      {
        ghost var log := host.trace;
        r := RemoveLast(left, kept);
        GrewMore(old(host.trace), log, host.trace, host.state.Policy(), host.state.overrides, foreign);
        if r.Fail? { return; }
        left := left[..|left| - 1];
        RuleDeletesMore(old(host.deleted), rules, |left|);
      }
      r := Pass;
    }

    /**
     * Cleans up after a failed setup: the rules, last first, then the link
     * whatever became of the rules. What could not be removed is leaked.
     */
    method RollbackSetup(link: string, rules: seq<PolicyRule>, ghost kept: set<PolicyRule>, error: TransportError)
      returns (e: TransportError, ghost left: seq<PolicyRule>)
      requires OwnsRules(host.state.rules, rules, kept)
      requires foreign.rules <= kept && link !in foreign.links
      modifies host
      ensures left <= rules && OwnsRules(host.state.rules, left, kept)
      ensures host.state == old(host.state).(rules := host.state.rules, links := host.state.links)
      ensures host.state.links == old(host.state.links) || host.state.links == old(host.state.links) - {link}
      ensures Grew(old(host.trace), host.trace, host.state.Policy(), host.state.overrides, foreign)
      ensures e == error || e == Network
      ensures e == error && error != Network ==> left == [] && link !in host.state.links
      ensures host.FineFrom(old(Now())) ==> left == [] && link !in host.state.links
      ensures rules == [] && !host.outcomes(old(Now())) ==> host.state.links == old(host.state.links)
      ensures old(Now()) < Now() && host.trace[Now() - 1].command == LinkDelete(link)
      ensures link in old(host.state.links) ==> (link !in host.state.links <==> host.outcomes(Now() - 1))
    {
      var rulesResult;
      rulesResult, left := RemovePolicyRules(rules, kept);
      var linkResult := Command(LinkDelete(link));
      e := if rulesResult.Pass? && linkResult.Pass? then error else Network;
    }

    /** Everything `BringUp` does once the link exists. */
    method SetUp(link: string, profile: Profile, ghost kept: set<PolicyRule>)
      returns (r: Result<seq<PolicyRule>, TransportError>, ghost left: seq<PolicyRule>)
      requires host.state.rules == kept
      requires foreign.rules <= kept && link !in foreign.links && link in host.state.links
      modifies host
      ensures host.state == old(host.state).(rules := host.state.rules, links := host.state.links)
      ensures OwnsRules(host.state.rules, left, kept)
      ensures left <= RulePlan(profile.allowed, mark)
      ensures Grew(old(host.trace), host.trace, host.state.Policy(), host.state.overrides, foreign)
      ensures r.Ok? ==>
        && left == r.value == RulePlan(profile.allowed, mark)
        && host.state.links == old(host.state.links)
        && host.added == old(host.added) + RuleAdds(r.value)
        && host.deleted == old(host.deleted)
      ensures r.Err? ==>
        host.state.links == old(host.state.links) || host.state.links == old(host.state.links) - {link}
      ensures r.Ok? ==> Issued(old(host.trace), host.trace, SetUpScript(link, profile, mark))
      ensures
        && host.Fine(old(Now()), old(Now()) + SetUpOps(profile))
        && Installable(RulePlan(profile.allowed, mark), kept)
        ==> r.Ok?
      ensures host.FineFrom(old(Now())) && r.Err? ==> left == [] && link !in host.state.links
      ensures host.OneFault(old(Now())) && Installable(RulePlan(profile.allowed, mark), kept) && r.Err? ==>
        left == [] && link !in host.state.links
      ensures !host.outcomes(old(Now())) && !host.outcomes(old(Now()) + 1) ==>
        r.Err? && host.state.links == old(host.state.links)
    {
      var c, installed := Provide(link, profile);
      if c.Pass? { return Ok(installed), installed; }
      if host.OneFault(old(Now())) && Installable(RulePlan(profile.allowed, mark), kept) {
        host.AfterFault(old(Now()), Now() - 1);
      }
      ghost var log := host.trace;
      var e;
      e, left := RollbackSetup(link, installed, kept, c.error);
      GrewMore(old(host.trace), log, host.trace, host.state.Policy(), host.state.overrides, foreign);
      r := Err(e);
    }

    /** Configures the link and installs routing, and returns the rules installed. */
    method Provide(link: string, profile: Profile) returns (r: Outcome<TransportError>, installed: seq<PolicyRule>)
      modifies host
      ensures host.state == old(host.state).(rules := host.state.rules)
      ensures OwnsRules(host.state.rules, installed, old(host.state.rules))
      ensures installed <= RulePlan(profile.allowed, mark)
      ensures r.Pass? ==> installed == RulePlan(profile.allowed, mark)
      ensures Grew(old(host.trace), host.trace, host.state.Policy(), host.state.overrides, foreign)
      ensures host.added == old(host.added) + RuleAdds(installed) && host.deleted == old(host.deleted)
      ensures r.Pass? ==> Issued(old(host.trace), host.trace, SetUpScript(link, profile, mark))
      ensures r.Fail? && Installable(RulePlan(profile.allowed, mark), old(host.state.rules)) ==>
        old(Now()) < Now() && !host.outcomes(Now() - 1)
      ensures
        && host.Fine(old(Now()), old(Now()) + SetUpOps(profile))
        && Installable(RulePlan(profile.allowed, mark), old(host.state.rules))
        ==> r.Pass?
      ensures !host.outcomes(old(Now())) ==> r.Fail? && installed == [] && Now() == old(Now()) + 1
    {
      installed := [];
      r := Configure(link, profile);
      if r.Fail? { return; }
      ghost var log := host.trace;
      r, installed := InstallRoutes(link, profile);
      GrewMore(old(host.trace), log, host.trace, host.state.Policy(), host.state.overrides, foreign);
      if r.Pass? {
        IssuedMore(old(host.trace), log, host.trace, ConfigureScript(link, profile, mark),
                   RouteScript(link, profile.allowed, mark));
      }
    }

    /**
     * Creates the link, configures it and installs routing. Success puts the
     * whole plan into the kernel and the ledger. Failure leaves the ledger
     * empty, whatever the rollback could not remove is leaked.
     */
    method BringUp(link: string, profile: Profile) returns (r: Outcome<TransportError>)
      requires Valid()
      modifies this, host
      ensures Valid()
      ensures host.state == old(host.state).(rules := host.state.rules, links := host.state.links)
      ensures Grew(old(host.trace), host.trace, host.state.Policy(), host.state.overrides, foreign)
      ensures r.Pass? ==>
        && old(activeInterface).None? && activeInterface == Some(link)
        && link !in old(host.state.links)
        && activeRules == RulePlan(profile.allowed, mark)
        && leakedRules == old(leakedRules) && leakedLinks == old(leakedLinks)
        && host.added == old(host.added) + [LinkAdd(link)] + RuleAdds(activeRules)
        && host.deleted == old(host.deleted)
      ensures r.Fail? ==>
        && activeInterface == old(activeInterface) && activeRules == old(activeRules)
        && (leakedLinks == old(leakedLinks) || leakedLinks == old(leakedLinks) + {link})
        && LeakedPrefix(old(leakedRules), leakedRules, RulePlan(profile.allowed, mark))
      ensures old(activeInterface).Some? ==>
        r == Fail(AlreadyConnected) && unchanged(this) && unchanged(host)
      ensures r.Pass? ==>
        && Issued(old(host.trace), host.trace, BringUpScript(link, profile, mark))
        && Installable(RulePlan(profile.allowed, mark), old(host.state.rules))
      ensures
        && host.Fine(old(Now()), old(Now()) + 2 + SetUpOps(profile))
        && old(activeInterface).None? && link !in old(host.state.links)
        && Installable(RulePlan(profile.allowed, mark), old(host.state.rules))
        ==> r.Pass?
      ensures host.FineFrom(old(Now())) && r.Fail? ==>
        leakedRules == old(leakedRules) && leakedLinks == old(leakedLinks)
      ensures host.OneFault(old(Now())) && Installable(RulePlan(profile.allowed, mark), old(host.state.rules)) ==>
        r.Fail? ==> leakedRules == old(leakedRules) && leakedLinks == old(leakedLinks)
      ensures Interrupted(host, old(Now())) && old(activeInterface).None? && link !in old(host.state.links) ==>
        r.Fail? && leakedLinks == old(leakedLinks) + {link}
    {
      if activeInterface.Some? { return Fail(AlreadyConnected); }
      r := AddLink(link);
      if r.Fail? { return; }
      assert OwnedRules() == leakedRules;
      ghost var log := host.trace;
      r := Establish(link, profile);
      GrewMore(old(host.trace), log, host.trace, host.state.Policy(), host.state.overrides, foreign);
      if r.Pass? {
        IssuedMore(old(host.trace), log, host.trace, [Deadline, LinkAdd(link)], SetUpScript(link, profile, mark));
      }
    }

    /** A deadline check and then the link itself. */
    method AddLink(link: string) returns (r: Outcome<TransportError>)
      modifies host
      ensures host.state == old(host.state).(links := old(host.state.links) + if r.Pass? then {link} else {})
      ensures Grew(old(host.trace), host.trace, host.state.Policy(), host.state.overrides, foreign)
      ensures host.added == old(host.added) + (if r.Pass? then [LinkAdd(link)] else [])
      ensures host.deleted == old(host.deleted)
      ensures r.Pass? == (host.Fine(old(Now()), old(Now()) + 2) && link !in old(host.state.links))
      ensures r.Pass? ==> Issued(old(host.trace), host.trace, [Deadline, LinkAdd(link)])
    {
      assert old(host.state.links) + {} == old(host.state.links);
      r := Check();
      if r.Fail? { return; }
      ghost var log := host.trace;
      r := Command(LinkAdd(link));
      IssuedMore(old(host.trace), log, host.trace, [Deadline], [LinkAdd(link)]);
    }

    /** Configures a link that was just added, or rolls back and records what is left of it. */
    method Establish(link: string, profile: Profile) returns (r: Outcome<TransportError>)
      requires activeInterface.None? && activeRules == [] && link !in foreign.links + leakedLinks
      requires OwnsRules(host.state.rules, leakedRules, foreign.rules) && leakedLinks !! foreign.links
      requires host.state.links == foreign.links + leakedLinks + {link}
      modifies this, host
      ensures Valid()
      ensures host.state == old(host.state).(rules := host.state.rules, links := host.state.links)
      ensures Grew(old(host.trace), host.trace, host.state.Policy(), host.state.overrides, foreign)
      ensures r.Pass? ==>
        && activeInterface == Some(link) && activeRules == RulePlan(profile.allowed, mark)
        && leakedRules == old(leakedRules) && leakedLinks == old(leakedLinks)
        && host.added == old(host.added) + RuleAdds(activeRules) && host.deleted == old(host.deleted)
      ensures r.Fail? ==>
        && activeInterface == None && activeRules == []
        && (leakedLinks == old(leakedLinks) || leakedLinks == old(leakedLinks) + {link})
        && LeakedPrefix(old(leakedRules), leakedRules, RulePlan(profile.allowed, mark))
      ensures r.Pass? ==> Issued(old(host.trace), host.trace, SetUpScript(link, profile, mark))
      ensures
        && host.Fine(old(Now()), old(Now()) + SetUpOps(profile))
        && Installable(RulePlan(profile.allowed, mark), old(host.state.rules))
        ==> r.Pass?
      ensures r.Pass? ==> Installable(RulePlan(profile.allowed, mark), old(host.state.rules))
      ensures host.FineFrom(old(Now())) && r.Fail? ==>
        leakedRules == old(leakedRules) && leakedLinks == old(leakedLinks)
      ensures host.OneFault(old(Now())) && Installable(RulePlan(profile.allowed, mark), old(host.state.rules)) ==>
        r.Fail? ==> leakedRules == old(leakedRules) && leakedLinks == old(leakedLinks)
      ensures !host.outcomes(old(Now())) && !host.outcomes(old(Now()) + 1) ==>
        r.Fail? && leakedLinks == old(leakedLinks) + {link}
    {
      ghost var kept := host.state.rules;
      OwnsRulesKeeps(kept, leakedRules, foreign.rules);
      var s;
      ghost var left;
      s, left := SetUp(link, profile, kept);
      OwnsRulesStack(host.state.rules, left, kept, leakedRules, foreign.rules);
      OwnedIsInstallable(host.state.rules, left, kept);
      if s.Err? {
        Leak(link, left);
        return Fail(s.error);
      }
      activeRules := s.value;
      activeInterface := Some(link);
      return Pass;
    }

    /** Records, for the proof only, what a failed rollback left behind. */
    ghost method Leak(link: string, left: seq<PolicyRule>)
      requires activeInterface.None? && activeRules == [] && link !in foreign.links + leakedLinks
      requires OwnsRules(host.state.rules, leakedRules + left, foreign.rules) && leakedLinks !! foreign.links
      requires host.state.links - {link} == foreign.links + leakedLinks
      modifies this`leakedRules, this`leakedLinks
      ensures Valid() && leakedRules == old(leakedRules) + left
      ensures leakedLinks == if link in host.state.links then old(leakedLinks) + {link} else old(leakedLinks)
    {
      leakedRules := leakedRules + left;
      assert leakedRules + [] == leakedRules;
      leakedLinks := if link in host.state.links then leakedLinks + {link} else leakedLinks;
    }

    /**
     * Removes the ledger's rules, last first, then the link. A failure keeps
     * what is left in the ledger, so that a retry resumes where this stopped.
     */
    method BringDown(link: string) returns (r: Outcome<TransportError>)
      requires Valid()
      modifies this, host
      ensures Valid()
      ensures leakedRules == old(leakedRules) && leakedLinks == old(leakedLinks)
      ensures host.state == old(host.state).(rules := host.state.rules, links := host.state.links)
      ensures Grew(old(host.trace), host.trace, host.state.Policy(), host.state.overrides, foreign)
      ensures activeRules <= old(activeRules)
      ensures r.Pass? ==> old(activeInterface) == Some(link) && activeInterface == None && activeRules == []
      ensures r.Fail? ==> activeInterface == old(activeInterface)
      ensures old(activeInterface) != Some(link) ==> r == Fail(NotConnected) && unchanged(this) && unchanged(host)
      ensures host.added == old(host.added)
      ensures host.deleted == old(host.deleted) + RuleDeletes(old(activeRules)[|activeRules|..])
                              + (if r.Pass? then [LinkDelete(link)] else [])
      ensures host.FineFrom(old(Now())) && old(activeInterface) == Some(link) ==> r.Pass?
      ensures old(activeInterface) == Some(link) && r.Fail? ==> r.error == Network
    {
      if activeInterface != Some(link) {
        assert activeRules[|activeRules|..] == [];
        return Fail(NotConnected);
      }
      r := ClearLedger();
      if r.Fail? { return; }
      r := Command(LinkDelete(link));
      if r.Fail? { return; }
      activeInterface := None;
    }

    /** Removes the ledger's rules, keeping those it could not remove. */
    method ClearLedger() returns (r: Outcome<TransportError>)
      requires Valid() && activeInterface.Some?
      modifies this`activeRules, host
      ensures Valid() && activeRules <= old(activeRules) && (r.Pass? <==> activeRules == [])
      ensures host.state == old(host.state).(rules := host.state.rules)
      ensures Grew(old(host.trace), host.trace, host.state.Policy(), host.state.overrides, foreign)
      ensures host.added == old(host.added)
      ensures host.deleted == old(host.deleted) + RuleDeletes(old(activeRules)[|activeRules|..])
      ensures host.FineFrom(old(Now())) ==> r.Pass?
      ensures r.Fail? ==> r.error == Network
    {
      ghost var kept := host.state.rules - Elements(activeRules);
      OwnsRulesSplit(host.state.rules, leakedRules, activeRules, foreign.rules);
      OwnsRulesKeeps(kept, leakedRules, foreign.rules);
      r, activeRules := RemovePolicyRules(activeRules, kept);
      OwnsRulesStack(host.state.rules, activeRules, kept, leakedRules, foreign.rules);
    }
  }

  /** The link is added, the next check fails and so does the link's deletion. */
  predicate Interrupted(host: Host, n: nat) {
    host.outcomes(n) && host.outcomes(n + 1) && !host.outcomes(n + 2) && !host.outcomes(n + 3)
  }

  /** A failed setup adds to the leak only rules that were new to the kernel, in plan order. */
  ghost predicate LeakedPrefix(was: seq<PolicyRule>, now: seq<PolicyRule>, plan: seq<PolicyRule>) {
    was <= now && now[|was|..] <= plan
  }

  lemma {:induction false} OwnsRulesStack(kernel: set<PolicyRule>, upper: seq<PolicyRule>, middle: set<PolicyRule>,
                                          lower: seq<PolicyRule>, kept: set<PolicyRule>)
    requires OwnsRules(kernel, upper, middle) && OwnsRules(middle, lower, kept)
    ensures OwnsRules(kernel, lower + upper, kept)
    decreases |upper|
  {
    if upper == [] {
      assert lower + upper == lower;
    } else {
      var last, init := upper[|upper| - 1], upper[..|upper| - 1];
      OwnsRulesStack(kernel - {last}, init, middle, lower, kept);
      assert (lower + upper)[..|lower + upper| - 1] == lower + init;
    }
  }

  lemma {:induction false} OwnsRulesSplit(kernel: set<PolicyRule>, lower: seq<PolicyRule>, upper: seq<PolicyRule>,
                                          kept: set<PolicyRule>)
    requires OwnsRules(kernel, lower + upper, kept)
    ensures OwnsRules(kernel, upper, kernel - Elements(upper))
    ensures OwnsRules(kernel - Elements(upper), lower, kept)
    decreases |upper|
  {
    if upper == [] {
      assert lower + upper == lower && Elements(upper) == {} && kernel - Elements(upper) == kernel;
    } else {
      var last, init := upper[|upper| - 1], upper[..|upper| - 1];
      assert upper == init + [last];
      assert (lower + upper)[..|lower + upper| - 1] == lower + init;
      OwnsRulesSplit(kernel - {last}, lower, init, kept);
      assert kernel - {last} - Elements(init) == kernel - Elements(upper);
    }
  }

  /** The kernel's rules are `kept` with the rules `owned` stacked on top, each new when added. */
  ghost predicate OwnsRules(kernel: set<PolicyRule>, owned: seq<PolicyRule>, kept: set<PolicyRule>)
    decreases |owned|
  {
    if owned == [] then kernel == kept
    else
      var last := owned[|owned| - 1];
      last in kernel && OwnsRules(kernel - {last}, owned[..|owned| - 1], kept)
  }

  /** Equivalently: the owned rules are distinct, not among those kept, and the rest of the kernel's. */
  lemma {:induction false} OwnsRulesMeaning(kernel: set<PolicyRule>, owned: seq<PolicyRule>, kept: set<PolicyRule>)
    ensures OwnsRules(kernel, owned, kept) <==>
            Distinct(owned) && kernel == kept + Elements(owned) && kept !! Elements(owned)
    decreases |owned|
  {
    if owned == [] {
      assert Elements(owned) == {};
    } else {
      var last, init := owned[|owned| - 1], owned[..|owned| - 1];
      assert owned == init + [last];
      assert Elements(owned) == Elements(init) + {last};
      OwnsRulesMeaning(kernel - {last}, init, kept);
      if OwnsRules(kernel, owned, kept) {
        assert last !in Elements(init);
        assert kernel == kept + Elements(owned);
      }
      if Distinct(owned) && kernel == kept + Elements(owned) && kept !! Elements(owned) {
        assert last !in init;
        assert kernel - {last} == kept + Elements(init);
      }
    }
  }

  lemma OwnedIsInstallable(kernel: set<PolicyRule>, owned: seq<PolicyRule>, kept: set<PolicyRule>)
    requires OwnsRules(kernel, owned, kept)
    ensures Installable(owned, kept)
  {
    OwnsRulesMeaning(kernel, owned, kept);
    forall r | r in owned ensures r !in kept { assert r in Elements(owned); }
  }

  lemma OwnsRulesLast(kernel: set<PolicyRule>, owned: seq<PolicyRule>, kept: set<PolicyRule>)
    requires owned != [] && OwnsRules(kernel, owned, kept)
    ensures owned[|owned| - 1] !in kept
  {
    OwnsRulesMeaning(kernel, owned, kept);
    assert owned[|owned| - 1] in Elements(owned);
  }

  /** The commands for one prefix. */
  ghost predicate RoutesPrefix(c: Command, link: string, p: P.AllowedIp, mark: nat) {
    var family := if p.network.V4? then V4 else V6;
    if p.length != 0 then c == RouteReplace(link, family, Some(p), None)
    else
      || c == RouteReplace(link, family, None, Some(mark))
      || c == RuleAdd(NotFirewallMark(family, mark)) || c == RuleAdd(SuppressDefault(family))
  }

  lemma {:induction false} RouteScriptMeaning(link: string, allowed: seq<P.AllowedIp>, mark: nat, c: Command)
    requires c != Deadline
    ensures c in RouteScript(link, allowed, mark) <==> exists p :: p in allowed && RoutesPrefix(c, link, p, mark)
    decreases |allowed|
  {
    if allowed == [] {
    } else {
      var init, last := allowed[..|allowed| - 1], allowed[|allowed| - 1];
      assert allowed == init + [last];
      RouteScriptMeaning(link, init, mark, c);
      assert c in RouteScriptFor(link, last, mark) <==> RoutesPrefix(c, link, last, mark);
    }
  }

  lemma {:induction false} AddressScriptMeaning(link: string, addresses: seq<P.TunnelAddress>, c: Command)
    requires c != Deadline
    ensures c in AddressScript(link, addresses) <==> exists a :: a in addresses && c == AddressAdd(link, a)
    decreases |addresses|
  {
    if addresses == [] {
    } else {
      var init, last := addresses[..|addresses| - 1], addresses[|addresses| - 1];
      assert addresses == init + [last];
      AddressScriptMeaning(link, init, c);
    }
  }

  /** A setup configures the key, every address and every prefix, and does nothing else. */
  lemma SetUpScriptMeaning(link: string, profile: Profile, mark: nat, c: Command)
    requires c != Deadline
    ensures c in SetUpScript(link, profile, mark) <==>
      || c == WireGuardSet(link, mark, PeerOf(profile)) || c == LinkUp(link, profile.mtu)
      || (exists a :: a in profile.addresses && c == AddressAdd(link, a))
      || (exists p :: p in profile.allowed && RoutesPrefix(c, link, p, mark))
  {
    AddressScriptMeaning(link, profile.addresses, c);
    RouteScriptMeaning(link, profile.allowed, mark, c);
  }

  lemma AddressScriptMore(script: seq<Command>, link: string, addresses: seq<P.TunnelAddress>, i: nat)
    requires i < |addresses|
    ensures script + AddressScript(link, addresses[..i + 1]) ==
      script + AddressScript(link, addresses[..i]) + [Deadline, AddressAdd(link, addresses[i])]
  {
    assert addresses[..i + 1][..i] == addresses[..i];
  }

  lemma RouteScriptMore(link: string, allowed: seq<P.AllowedIp>, mark: nat, i: nat)
    requires i < |allowed|
    ensures RouteScript(link, allowed[..i + 1], mark) ==
      RouteScript(link, allowed[..i], mark) + RouteScriptFor(link, allowed[i], mark)
  {
    assert allowed[..i + 1][..i] == allowed[..i];
  }

  lemma RuleAddsMore(start: seq<Command>, rules: seq<PolicyRule>, rule: PolicyRule)
    ensures start + RuleAdds(rules) + [RuleAdd(rule)] == start + RuleAdds(rules + [rule])
  {
    assert (rules + [rule])[..|rules|] == rules;
  }

  lemma RuleDeletesMore(start: seq<Command>, rules: seq<PolicyRule>, n: nat)
    requires n < |rules|
    ensures start + RuleDeletes(rules[n + 1..]) + [RuleDelete(rules[n])] == start + RuleDeletes(rules[n..])
  {
    assert rules[n..][1..] == rules[n + 1..];
  }

  lemma OwnsRulesKeeps(kernel: set<PolicyRule>, owned: seq<PolicyRule>, kept: set<PolicyRule>)
    requires OwnsRules(kernel, owned, kept)
    ensures kept <= kernel
  {
  }

  lemma OwnsRulesPush(kernel: set<PolicyRule>, owned: seq<PolicyRule>, kept: set<PolicyRule>, r: PolicyRule)
    requires OwnsRules(kernel, owned, kept) && r !in kernel
    ensures OwnsRules(kernel + {r}, owned + [r], kept)
  {
  }

  /** What the plan installs next is not in the kernel yet. */
  lemma NextIsFree(plan: seq<PolicyRule>, installed: seq<PolicyRule>, more: seq<PolicyRule>,
                   kernel: set<PolicyRule>, kept: set<PolicyRule>)
    requires installed + more <= plan && Installable(plan, kept) && OwnsRules(kernel, installed, kept)
    ensures forall r :: r in more ==> r !in kernel
  {
    OwnsRulesMeaning(kernel, installed, kept);
    forall r | r in more
      ensures r !in kernel
    {
      var j :| 0 <= j < |more| && more[j] == r;
      assert plan[|installed| + j] == r && r in plan;
      forall i | 0 <= i < |installed| ensures installed[i] != r { assert plan[i] == installed[i]; }
    }
  }

  lemma {:induction false} RouteOpsPrefix(allowed: seq<P.AllowedIp>, i: nat)
    requires i < |allowed|
    ensures RouteOps(allowed[..i + 1]) == RouteOps(allowed[..i]) + RouteOpsFor(allowed[i])
    ensures RouteOps(allowed[..i + 1]) <= RouteOps(allowed)
    decreases |allowed|
  {
    var last := |allowed| - 1;
    assert allowed[..i + 1][..i] == allowed[..i];
    if i < last {
      RouteOpsPrefix(allowed[..last], i);
      assert allowed[..last][..i] == allowed[..i] && allowed[..last][..i + 1] == allowed[..i + 1];
    } else {
      assert allowed[..i + 1] == allowed;
    }
  }

  lemma {:induction false} PlanPrefix(allowed: seq<P.AllowedIp>, i: nat, mark: nat)
    requires i < |allowed|
    ensures RulePlan(allowed[..i + 1], mark) == RulePlan(allowed[..i], mark) + RulesFor(allowed[i], mark)
    ensures RulePlan(allowed[..i + 1], mark) <= RulePlan(allowed, mark)
    decreases |allowed|
  {
    var last := |allowed| - 1;
    assert allowed[..i + 1][..i] == allowed[..i];
    if i < last {
      PlanPrefix(allowed[..last], i, mark);
      assert allowed[..last][..i] == allowed[..i] && allowed[..last][..i + 1] == allowed[..i + 1];
    } else {
      assert allowed[..i + 1] == allowed;
    }
  }
}
