/**
 * The WireGuard lifecycle adapter, teardown retries and the shape of a
 * validated routing plan (core/transport/src/wireguard.rs, core/transport/src/linux.rs).
 */
module Adapters {
  import opened Results
  import opened Hosts
  import opened Transports
  import opened Tunnels
  import opened Sets
  import P = Prefixes

  class WireGuardAdapter {
    const interface: string
    const profile: Profile
    const backend: LinuxBackend
    var connected: bool

    constructor (interface: string, profile: Profile, backend: LinuxBackend)
      requires backend.Valid() && backend.activeInterface.None?
      requires backend.leakedRules == [] && backend.leakedLinks == {}
      ensures this.interface == interface && this.profile == profile && this.backend == backend
      ensures !connected && Valid() && Clean()
    {
      this.interface := interface;
      this.profile := profile;
      this.backend := backend;
      connected := false;
    }

    /** How far the log has come. */
    ghost function Now(): nat
      reads backend.host
    {
      |backend.host.trace|
    }

    ghost function Plan(): seq<PolicyRule> {
      RulePlan(profile.allowed, backend.mark)
    }

    /**
     * While connected the ledger is everything the backend owns. Otherwise the
     * ledger is empty, and a failed rollback may have left the link or a prefix
     * of the plan behind.
     */
    ghost predicate Valid()
      reads this, backend, backend.host
    {
      && backend.Valid()
      && if connected then
           && backend.activeInterface == Some(interface)
           && backend.leakedRules == [] && backend.leakedLinks == {}
           && backend.activeRules <= Plan()
         else
           && backend.activeInterface == None
           && backend.leakedRules <= Plan()
           && backend.leakedLinks <= {interface}
    }

    /** Every command and check of a successful connect, in order. */
    ghost function Script(): (cs: seq<Command>)
      ensures |cs| == 3 + SetUpOps(profile)
    {
      [Deadline] + BringUpScript(interface, profile, backend.mark)
    }

    /** The tunnel can be brought up at all: its link and its rules were not there before. */
    ghost predicate Connectable() {
      interface !in backend.foreign.links && Installable(Plan(), backend.foreign.rules)
    }

    /** The transport's parameters are this profile's. */
    predicate Fits(config: TransportConfig) {
      config.kind == WireGuard && config.endpoint == profile.endpoint && config.Valid()
    }

    /** Nothing of this connection's is left in the kernel. */
    ghost predicate Clean()
      reads this, backend
    {
      !connected && backend.leakedRules == [] && backend.leakedLinks == {}
    }

    lemma CleanMeansForeignOnly()
      requires Valid()
      ensures Clean() <==>
              !connected && backend.host.state.links == backend.foreign.links
              && backend.host.state.rules == backend.foreign.rules
    {
      var b := backend;
      OwnsRulesMeaning(b.host.state.rules, b.OwnedRules(), b.foreign.rules);
      if !connected {
        assert b.OwnedRules() == b.leakedRules;
        if b.leakedRules == [] {
          assert Elements(b.OwnedRules()) == {};
        } else {
          assert b.leakedRules[0] in Elements(b.OwnedRules());
        }
      }
    }

    /** Brings the tunnel up. After a leak this can never succeed again. */
    method Connect(config: TransportConfig) returns (r: Result<string, TransportError>)
      requires Valid()
      modifies this, backend, backend.host
      ensures Valid()
      ensures backend.host.state ==
              old(backend.host.state).(rules := backend.host.state.rules, links := backend.host.state.links)
      ensures Grew(old(backend.host.trace), backend.host.trace,
                   backend.host.state.Policy(), backend.host.state.overrides, backend.foreign)
      ensures connected == (old(connected) || r.Ok?)
      ensures r.Ok? ==> !old(connected) && old(Clean()) && r.value == interface
      ensures !old(connected) && !old(Clean()) ==> r.Err? && !Clean()
      ensures old(connected) ==> r == Err(AlreadyConnected) && unchanged(backend) && unchanged(backend.host)
      ensures !old(connected) && !Fits(config) ==>
        r == Err(InvalidConfig) && unchanged(backend) && unchanged(backend.host)
      ensures r.Ok? ==> Connectable() && Issued(old(backend.host.trace), backend.host.trace, Script())
      ensures
        && backend.host.Fine(old(Now()), old(Now()) + 3 + SetUpOps(profile))
        && !old(connected) && Fits(config) && old(Clean()) && Connectable()
        ==> r.Ok?
      ensures backend.host.FineFrom(old(Now())) && old(Clean()) && r.Err? ==> Clean()
      ensures backend.host.OneFault(old(Now())) && old(Clean()) && Connectable() && r.Err? ==> Clean()
      ensures
        && backend.host.outcomes(old(Now())) && Interrupted(backend.host, old(Now()) + 1)
        && Fits(config) && old(Clean()) && interface !in backend.foreign.links
        ==> r.Err? && !Clean()
    {
      if connected { return Err(AlreadyConnected); }
      if config.kind != WireGuard || config.endpoint != profile.endpoint { return Err(InvalidConfig); }
      if !config.Valid() { return Err(InvalidConfig); }
      var c := backend.Check();
      if c.Fail? { return Err(c.error); }
      ghost var log := backend.host.trace;
      c := Raise();
      if c.Pass? {
        IssuedMore(old(backend.host.trace), log, backend.host.trace, [Deadline],
                   BringUpScript(interface, profile, backend.mark));
      }
      r := if c.Fail? then Err(c.error) else Ok(interface);
    }

    /** Brings the tunnel up through the backend. */
    method Raise() returns (r: Outcome<TransportError>)
      requires Valid() && !connected
      modifies this, backend, backend.host
      ensures Valid() && connected == r.Pass?
      ensures backend.host.state ==
              old(backend.host.state).(rules := backend.host.state.rules, links := backend.host.state.links)
      ensures Grew(old(backend.host.trace), backend.host.trace,
                   backend.host.state.Policy(), backend.host.state.overrides, backend.foreign)
      ensures r.Pass? ==>
        && old(Clean()) && Connectable()
        && Issued(old(backend.host.trace), backend.host.trace, BringUpScript(interface, profile, backend.mark))
      ensures !old(Clean()) ==> !Clean()
      ensures
        && backend.host.Fine(old(Now()), old(Now()) + 2 + SetUpOps(profile))
        && old(Clean()) && Connectable()
        ==> r.Pass?
      ensures backend.host.FineFrom(old(Now())) && old(Clean()) && r.Fail? ==> Clean()
      ensures backend.host.OneFault(old(Now())) && old(Clean()) && Connectable() && r.Fail? ==> Clean()
      ensures Interrupted(backend.host, old(Now())) && interface !in backend.foreign.links && old(Clean()) ==>
        r.Fail? && !Clean()
    {
      ghost var leaked := backend.leakedRules;
      CleanMeansForeignOnly();
      r := backend.BringUp(interface, profile);
      DistinctStart(leaked, backend.OwnedRules(), Plan(), backend.host.state.rules, backend.foreign.rules);
      connected := r.Pass?;
    }

    /** Takes the tunnel down; a failure keeps it connected so that it can be retried. */
    method Disconnect() returns (r: Outcome<TransportError>)
      requires Valid()
      modifies this, backend, backend.host
      ensures Valid()
      ensures backend.host.state ==
              old(backend.host.state).(rules := backend.host.state.rules, links := backend.host.state.links)
      ensures Grew(old(backend.host.trace), backend.host.trace,
                   backend.host.state.Policy(), backend.host.state.overrides, backend.foreign)
      ensures r.Pass? ==> old(connected) && Clean()
      ensures r.Fail? ==> connected == old(connected)
      ensures !old(connected) ==>
        r == Fail(NotConnected) && unchanged(this) && unchanged(backend) && unchanged(backend.host)
      ensures backend.host.FineFrom(old(Now())) && old(connected) ==> r.Pass?
      ensures old(connected) && r.Fail? ==> r.error == Network
      ensures backend.host.added == old(backend.host.added) && backend.activeRules <= old(backend.activeRules)
      ensures old(connected) ==>
        backend.host.deleted ==
        Progress(old(backend.host.deleted), old(backend.activeRules), |backend.activeRules|, interface, r.Pass?)
    {
      if !connected { return Fail(NotConnected); }
      :- backend.BringDown(interface);
      connected := false;
      r := Pass;
    }
  }

  /** Distinct owned rules that begin with a leaked prefix of the plan cannot repeat the plan's first rule. */
  lemma DistinctStart(leaked: seq<PolicyRule>, owned: seq<PolicyRule>, plan: seq<PolicyRule>,
                      kernel: set<PolicyRule>, kept: set<PolicyRule>)
    requires leaked <= plan && leaked <= owned && owned[|leaked|..] <= plan
    requires OwnsRules(kernel, owned, kept)
    ensures leaked == [] || owned == leaked
  {
    OwnsRulesMeaning(kernel, owned, kept);
    assert |owned| > |leaked| ==> owned[|leaked|] == owned[|leaked|..][0];
  }

  // --- Teardown across retries ----------------------------------------------

  lemma {:induction false} RuleDeletesConcat(a: seq<PolicyRule>, b: seq<PolicyRule>)
    ensures RuleDeletes(a + b) == RuleDeletes(b) + RuleDeletes(a)
  {
    if a == [] {
      assert a + b == b;
    } else {
      assert (a + b)[1..] == a[1..] + b;
      RuleDeletesConcat(a[1..], b);
    }
  }

  lemma {:induction false} UndoRules(rules: seq<PolicyRule>)
    ensures Undo(RuleAdds(rules)) == RuleDeletes(rules)
  {
    if rules == [] {
    } else {
      var last, init := rules[|rules| - 1], rules[..|rules| - 1];
      UndoRules(init);
      assert rules == init + [last];
      RuleDeletesConcat(init, [last]);
      assert RuleDeletes([last]) == [RuleDelete(last)] by { assert [last][1..] == []; }
      var adds := RuleAdds(rules);
      assert adds[..|adds| - 1] == RuleAdds(init);
    }
  }

  lemma UndoSession(link: string, rules: seq<PolicyRule>)
    ensures forall c :: c in [LinkAdd(link)] + RuleAdds(rules) ==> c.Addition()
    ensures Undo([LinkAdd(link)] + RuleAdds(rules)) == RuleDeletes(rules) + [LinkDelete(link)]
  {
    UndoConcat([LinkAdd(link)], RuleAdds(rules));
    UndoRules(rules);
    assert Undo([LinkAdd(link)]) == [LinkDelete(link)];
  }

  /** What has been deleted once the ledger is down to `count` rules, and after it the link. */
  ghost function Progress(start: seq<Command>, ledger: seq<PolicyRule>, count: nat, link: string, done: bool)
    : seq<Command>
    requires count <= |ledger|
  {
    start + RuleDeletes(ledger[count..]) + (if done then [LinkDelete(link)] else [])
  }

  /** A later attempt resumes where an earlier one stopped. */
  lemma ProgressResumes(start: seq<Command>, ledger: seq<PolicyRule>, upper: nat, lower: nat, link: string, done: bool)
    requires lower <= upper <= |ledger|
    ensures Progress(Progress(start, ledger, upper, link, false), ledger[..upper], lower, link, done)
         == Progress(start, ledger, lower, link, done)
  {
    assert ledger[lower..] == ledger[..upper][lower..] + ledger[upper..];
    RuleDeletesConcat(ledger[..upper][lower..], ledger[upper..]);
  }

  /**
   * Any number of teardown attempts, each of which may fail anywhere. Together
   * they delete the ledger's rules once each, last installed first, and then
   * the link; until that is complete what is left is still in the ledger.
   */
  method TearDown(b: LinuxBackend, link: string, attempts: nat) returns (done: bool)
    requires b.Valid() && b.activeInterface == Some(link)
    modifies b, b.host
    ensures b.Valid()
    ensures done <==> b.activeInterface == None
    ensures done ==> b.activeRules == []
    ensures !done ==> b.activeInterface == Some(link)
    ensures b.leakedRules == old(b.leakedRules) && b.leakedLinks == old(b.leakedLinks)
    ensures b.activeRules <= old(b.activeRules)
    ensures b.host.added == old(b.host.added)
    ensures b.host.deleted == Progress(old(b.host.deleted), old(b.activeRules), |b.activeRules|, link, done)
  {
    ghost var ledger, start := b.activeRules, b.host.deleted;
    assert ledger[|ledger|..] == [];
    done := false;
    for i := 0 to attempts
      invariant b.Valid()
      invariant b.activeInterface == if done then None else Some(link)
      invariant done ==> b.activeRules == []
      invariant b.leakedRules == old(b.leakedRules) && b.leakedLinks == old(b.leakedLinks)
      invariant b.activeRules <= ledger
      invariant b.host.added == old(b.host.added)
      invariant b.host.deleted == Progress(start, ledger, |b.activeRules|, link, done)
    {
      if !done {
        ghost var was, count := b.activeRules, |b.activeRules|;
        var r := b.BringDown(link);
        assert was == ledger[..count];
        ProgressResumes(start, ledger, count, |b.activeRules|, link, r.Pass?);
        done := r.Pass?;
      }
    }
  }

  /**
   * A whole session: bring up, then tear down with any number of retries. The
   * completed deletions are exactly the inverse of the completed additions, in
   * reverse, and the kernel's links and rules are back to what they were.
   */
  method Session(b: LinuxBackend, link: string, profile: Profile, attempts: nat)
    returns (up: bool, done: bool, ghost adds: seq<Command>)
    requires b.Valid() && b.activeInterface.None?
    modifies b, b.host
    ensures b.Valid()
    ensures forall c :: c in adds ==> c.Addition()
    ensures up ==> adds == [LinkAdd(link)] + RuleAdds(RulePlan(profile.allowed, b.mark))
    ensures up && done ==>
      && b.host.added == old(b.host.added) + adds
      && b.host.deleted == old(b.host.deleted) + Undo(adds)
      && b.host.state.links == old(b.host.state.links)
      && b.host.state.rules == old(b.host.state.rules)
  {
    done := false;
    adds := [];
    var r := b.BringUp(link, profile);
    up := r.Pass?;
    if up {
      ghost var ledger := b.activeRules;
      adds := [LinkAdd(link)] + RuleAdds(ledger);
      assert b.host.added == old(b.host.added) + adds;
      done := TearDown(b, link, attempts);
      if done {
        UndoneInFull(old(b.host.deleted), link, ledger);
        assert b.OwnedRules() == b.leakedRules == old(b.OwnedRules());
        SameRules(old(b.host.state.rules), b.host.state.rules, b.leakedRules, b.foreign.rules);
      }
    }
  }

  /** Deleting the whole ledger and the link undoes the session. */
  lemma UndoneInFull(start: seq<Command>, link: string, ledger: seq<PolicyRule>)
    ensures forall c :: c in [LinkAdd(link)] + RuleAdds(ledger) ==> c.Addition()
    ensures Progress(start, ledger, 0, link, true) == start + Undo([LinkAdd(link)] + RuleAdds(ledger))
  {
    UndoSession(link, ledger);
    assert ledger[0..] == ledger;
  }

  lemma SameRules(a: set<PolicyRule>, b: set<PolicyRule>, owned: seq<PolicyRule>, kept: set<PolicyRule>)
    requires OwnsRules(a, owned, kept) && OwnsRules(b, owned, kept)
    ensures a == b
  {
    OwnsRulesMeaning(a, owned, kept);
    OwnsRulesMeaning(b, owned, kept);
  }

  // --- The plan of a validated profile --------------------------------------

  /** A valid prefix of length zero is the all-zero network of its family. */
  lemma DefaultIsUnique(p: P.AllowedIp, q: P.AllowedIp)
    requires P.ValidNetwork(p) && P.ValidNetwork(q) && p.length == q.length == 0
    requires FamilyOf(p.network) == FamilyOf(q.network)
    ensures p == q
  {
  }

  /** Families whose default prefix occurs in a list. */
  function DefaultFamilies(allowed: seq<P.AllowedIp>): set<Family> {
    set p | p in allowed && p.length == 0 :: FamilyOf(p.network)
  }

  ghost predicate PlanShape(plan: seq<PolicyRule>, families: set<Family>) {
    && |plan| == 2 * |families|
    && (forall r :: r in plan ==> r.family in families)
    && Distinct(plan)
  }

  lemma {:induction false} PlanIsDistinct(allowed: seq<P.AllowedIp>, mark: nat)
    requires forall p :: p in allowed ==> P.ValidNetwork(p)
    requires Distinct(allowed)
    ensures PlanShape(RulePlan(allowed, mark), DefaultFamilies(allowed))
    decreases |allowed|
  {
    if allowed == [] {
      assert DefaultFamilies(allowed) == {};
    } else {
      var last, init := allowed[|allowed| - 1], allowed[..|allowed| - 1];
      assert allowed == init + [last];
      PlanIsDistinct(init, mark);
      if last.length != 0 {
        assert DefaultFamilies(allowed) == DefaultFamilies(init);
        assert RulePlan(allowed, mark) == RulePlan(init, mark);
      } else {
        var f := FamilyOf(last.network);
        NewFamily(init, last);
        PlanShapeGrows(RulePlan(init, mark), DefaultFamilies(init), f, mark);
      }
    }
  }

  /** A second default prefix is of the other family. */
  lemma NewFamily(init: seq<P.AllowedIp>, last: P.AllowedIp)
    requires forall p :: p in init + [last] ==> P.ValidNetwork(p)
    requires last.length == 0 && last !in init
    ensures FamilyOf(last.network) !in DefaultFamilies(init)
    ensures DefaultFamilies(init + [last]) == DefaultFamilies(init) + {FamilyOf(last.network)}
  {
    forall q | q in init && q.length == 0
      ensures FamilyOf(q.network) != FamilyOf(last.network)
    {
      assert q in init + [last] && last in init + [last];
      if FamilyOf(q.network) == FamilyOf(last.network) { DefaultIsUnique(q, last); }
    }
  }

  lemma PlanShapeGrows(plan: seq<PolicyRule>, families: set<Family>, f: Family, mark: nat)
    requires PlanShape(plan, families) && f !in families
    ensures PlanShape(plan + [NotFirewallMark(f, mark), SuppressDefault(f)], families + {f})
  {
  }

  /** A validated profile installs at most four policy rules, all different. */
  lemma ValidPlan(profile: Profile, mark: nat)
    requires ValidProfile(profile)
    ensures |RulePlan(profile.allowed, mark)| <= 4
    ensures Distinct(RulePlan(profile.allowed, mark))
  {
    PlanIsDistinct(profile.allowed, mark);
    var families := DefaultFamilies(profile.allowed);
    var all := {V4, V6};
    assert families <= all;
    SubsetSize(families, all);
  }
}
