/** Access lists and the choice of a backend for a server name. Regexes are predicates on names. */
module Routing {
  import opened Wrappers
  import opened Bytes
  import opened Addresses
  import QuicLb

  datatype AclAction = Unspecified | Drop | Accept | Continue

  datatype AclRule = AclRule(source: Net6, action: AclAction)

  datatype Acl = Acl(rules: seq<AclRule>, defaultAction: AclAction) {

    ghost predicate Valid() {
      forall r <- rules :: r.source.Valid() && r.action != Unspecified
    }
  }

  datatype Backend = Null | Udp(addr: SocketAddr)

  datatype Rule = Rule(matches: seq<byte> -> bool, backend: Backend, acl: Acl, timeout: Option<nat>)

  datatype Config = Config(quicLb: seq<QuicLb.LbConfig>, maxLifetime: Option<nat>, handshakeTimeout: Option<nat>,
                           rules: seq<Rule>, defaultRule: Rule) {

    /** What loading a configuration guarantees. */
    ghost predicate Valid() {
      QuicLb.Valid(quicLb) && defaultRule.acl.Valid() && forall r <- rules :: r.acl.Valid()
    }

    /** No access list leaves its default action out. */
    ghost predicate Specified() {
      defaultRule.acl.defaultAction != Unspecified && forall r <- rules :: r.acl.defaultAction != Unspecified
    }
  }

  /** A configuration that was loaded without an error. */
  type LoadedConfig = c: Config | c.Valid()
    witness Config([], None, None, [], Rule(_ => false, Null, Acl([], Drop), None))

  datatype Route = Route(backend: Backend, timeout: Option<nat>)

  datatype RouteError = UnspecifiedAction

  // ----- loading an access list

  datatype Source = Block4(net4: Net4) | Block6(net6: Net6) {

    ghost predicate Valid() {
      if Block4? then net4.Valid() else net6.Valid()
    }

    /** Whether the block, as it was configured, holds the peer. */
    ghost predicate Holds(peer: SocketAddr)
      requires Valid()
    {
      match this
      case Block4(net) =>
        (match Normalize(peer)
         case V4(ip, _) => net.Contains(ip)
         case V6(_, _, _, _) => false)
      case Block6(net) => net.Contains(PeerIp(peer))
    }
  }

  datatype LoadError = RuleUnspecified

  /** Lifts every IPv4 block into IPv6; a rule without an action is refused. */
  method LoadAcl(listed: seq<(Source, AclAction)>, defaultAction: AclAction) returns (r: Result<Acl, LoadError>)
    requires forall x <- listed :: x.0.Valid()
    ensures r.Success? <==> forall x <- listed :: x.1 != Unspecified
    ensures r.Success? ==> r.value.Valid() && r.value.defaultAction == defaultAction
    ensures r.Success? ==> |r.value.rules| == |listed| &&
                           forall i | 0 <= i < |listed| :: Loads(listed[i], r.value.rules[i])
  {
    var rules: seq<AclRule> := [];
    for i := 0 to |listed|
      invariant |rules| == i
      invariant forall j | 0 <= j < i :: listed[j].1 != Unspecified
      invariant forall j | 0 <= j < i :: rules[j].source.Valid() && Loads(listed[j], rules[j])
    {
      var source := match listed[i].0 case Block4(net) => Lift(net) case Block6(net) => net;
      if listed[i].1 == Unspecified {
        return Failure(RuleUnspecified);
      }
      rules := rules + [AclRule(source, listed[i].1)];
    }
    r := Success(Acl(rules, defaultAction));
  }

  ghost predicate Loads(listed: (Source, AclAction), rule: AclRule)
    requires listed.0.Valid()
  {
    rule.action == listed.1 &&
    match listed.0
    case Block4(net) => rule.source == Lift(net)
    case Block6(net) => rule.source == net
  }

  /** A loaded rule accepts exactly the peers its configured block holds. */
  lemma LoadedRuleHolds(listed: (Source, AclAction), rule: AclRule, peer: SocketAddr)
    requires listed.0.Valid() && rule.source.Valid() && Loads(listed, rule)
    ensures rule.source.Contains(PeerIp(peer)) <==> listed.0.Holds(peer)
  {
    if listed.0.Block4? {
      hide Net4.Contains, Net6.Contains, Lift;
      LiftIsExact(listed.0.net4, PeerIp(peer));
      if peer.V4? {
        MappedExactly(PeerIp(peer), peer.ip4);
      }
    }
  }

  // ----- deciding

  /** The first rule whose block contains the peer decides. */
  function Decide(rules: seq<AclRule>, defaultAction: AclAction, peer: Ip6): AclAction
    requires forall r <- rules :: r.source.Valid()
  {
    if rules == [] then defaultAction
    else if rules[0].source.Contains(peer) then rules[0].action
    else Decide(rules[1..], defaultAction, peer)
  }

  function AclDecision(acl: Acl, peer: SocketAddr): AclAction
    requires acl.Valid()
  {
    Decide(acl.rules, acl.defaultAction, PeerIp(peer))
  }

  ghost function DecideListed(listed: seq<(Source, AclAction)>, defaultAction: AclAction, peer: SocketAddr): AclAction
    requires forall x <- listed :: x.0.Valid()
  {
    if listed == [] then defaultAction
    else if listed[0].0.Holds(peer) then listed[0].1
    else DecideListed(listed[1..], defaultAction, peer)
  }

  /** Deciding by a loaded list is deciding by the list as it was configured. */
  lemma {:induction false} LoadedAclDecides(listed: seq<(Source, AclAction)>, rules: seq<AclRule>,
                                            defaultAction: AclAction, peer: SocketAddr)
    requires (forall x <- listed :: x.0.Valid()) && (forall r <- rules :: r.source.Valid())
    requires |rules| == |listed| && forall i | 0 <= i < |listed| :: Loads(listed[i], rules[i])
    ensures Decide(rules, defaultAction, PeerIp(peer)) == DecideListed(listed, defaultAction, peer)
    decreases |listed|
  {
    hide Net6.Contains, Source.Holds;
    if listed != [] {
      LoadedRuleHolds(listed[0], rules[0], peer);
      LoadedAclDecides(listed[1..], rules[1..], defaultAction, peer);
    }
  }

  function MinTimeout(a: Option<nat>, b: Option<nat>): (r: Option<nat>)
    ensures r == a || r == b
    ensures r.None? <==> a.None? && b.None?
    ensures r.Some? ==> (a.Some? ==> r.value <= a.value) && (b.Some? ==> r.value <= b.value)
  {
    match (a, b)
    case (Some(x), Some(y)) => if x <= y then a else b
    case (Some(_), None) => a
    case (None, _) => b
  }

  function RouteByRules(config: Config, rules: seq<Rule>, sni: seq<byte>, peer: SocketAddr): Option<Result<Route, RouteError>>
    requires forall r <- rules :: r.acl.Valid()
  {
    if rules == [] then None
    else if !rules[0].matches(sni) then RouteByRules(config, rules[1..], sni, peer)
    else
      match AclDecision(rules[0].acl, peer)
      case Unspecified => Some(Failure(UnspecifiedAction))
      case Continue => RouteByRules(config, rules[1..], sni, peer)
      case Drop => Some(Success(Route(Null, MinTimeout(config.maxLifetime, rules[0].timeout))))
      case Accept => Some(Success(Route(rules[0].backend, MinTimeout(config.maxLifetime, rules[0].timeout))))
  }

  function DefaultRoute(config: Config, peer: SocketAddr): Result<Route, RouteError>
    requires config.Valid()
  {
    var rule := config.defaultRule;
    var timeout := MinTimeout(config.maxLifetime, rule.timeout);
    match AclDecision(rule.acl, peer)
    case Accept => Success(Route(rule.backend, timeout))
    case Unspecified => Failure(UnspecifiedAction)
    case Drop => Success(Route(Null, timeout))
    case Continue => Success(Route(Null, timeout))
  }

  function RouteForSni(config: Config, peer: SocketAddr, sni: Option<seq<byte>>): Result<Route, RouteError>
    requires config.Valid()
  {
    var byRules := if sni.Some? then RouteByRules(config, config.rules, sni.value, peer) else None;
    byRules.GetOr(DefaultRoute(config, peer))
  }

  /** The rule matches the name and its access list does not pass the peer on. */
  ghost predicate Settles(rule: Rule, sni: seq<byte>, peer: SocketAddr)
    requires rule.acl.Valid()
  {
    rule.matches(sni) && AclDecision(rule.acl, peer) != Continue
  }

  ghost predicate FirstToSettle(rules: seq<Rule>, i: nat, sni: seq<byte>, peer: SocketAddr)
    requires forall r <- rules :: r.acl.Valid()
  {
    i < |rules| && Settles(rules[i], sni, peer) && forall j | 0 <= j < i :: !Settles(rules[j], sni, peer)
  }

  ghost predicate FirstToHold(rules: seq<AclRule>, i: nat, peer: Ip6)
    requires forall r <- rules :: r.source.Valid()
  {
    i < |rules| && rules[i].source.Contains(peer) && forall j | 0 <= j < i :: !rules[j].source.Contains(peer)
  }

  lemma {:induction false} FirstHolderDecides(rules: seq<AclRule>, defaultAction: AclAction, peer: Ip6)
    requires forall r <- rules :: r.source.Valid()
    ensures forall i: nat | FirstToHold(rules, i, peer) :: Decide(rules, defaultAction, peer) == rules[i].action
    ensures (forall r <- rules :: !r.source.Contains(peer)) ==> Decide(rules, defaultAction, peer) == defaultAction
    decreases |rules|
  {
    hide Net6.Contains, Net6.Valid;
    if rules != [] {
      var rest := rules[1..];
      FirstHolderDecides(rest, defaultAction, peer);
      forall i: nat | FirstToHold(rules, i, peer) ensures Decide(rules, defaultAction, peer) == rules[i].action {
        if i > 0 {
          assert !rules[0].source.Contains(peer);
          assert forall j | 0 <= j < i - 1 :: rest[j] == rules[j + 1];
          assert FirstToHold(rest, i - 1, peer);
        }
      }
    }
  }

  /** The first block that holds the peer's address decides, and without one the default action. */
  lemma AclDecides(acl: Acl, peer: SocketAddr)
    requires acl.Valid()
    ensures forall i: nat | FirstToHold(acl.rules, i, PeerIp(peer)) :: AclDecision(acl, peer) == acl.rules[i].action
    ensures (forall r <- acl.rules :: !r.source.Contains(PeerIp(peer))) ==> AclDecision(acl, peer) == acl.defaultAction
  {
    FirstHolderDecides(acl.rules, acl.defaultAction, PeerIp(peer));
  }

  /** What a rule that settles the matter says. */
  ghost predicate Says(config: Config, rule: Rule, peer: SocketAddr, r: Result<Route, RouteError>)
    requires rule.acl.Valid()
  {
    match AclDecision(rule.acl, peer)
    case Unspecified => r.Failure?
    case Accept => r == Success(Route(rule.backend, MinTimeout(config.maxLifetime, rule.timeout)))
    case _ => r == Success(Route(Null, MinTimeout(config.maxLifetime, rule.timeout)))
  }

  lemma {:induction false} RulesDecide(config: Config, rules: seq<Rule>, sni: seq<byte>, peer: SocketAddr)
    requires forall r <- rules :: r.acl.Valid()
    ensures var r := RouteByRules(config, rules, sni, peer);
            (r.None? <==> forall j | 0 <= j < |rules| :: !Settles(rules[j], sni, peer)) &&
            forall i: nat | FirstToSettle(rules, i, sni, peer) :: r.Some? && Says(config, rules[i], peer, r.value)
    decreases |rules|
  {
    hide AclDecision, Acl.Valid;
    if rules != [] {
      var rest := rules[1..];
      RulesDecide(config, rest, sni, peer);
      assert forall j | 0 <= j < |rest| :: rest[j] == rules[j + 1];
      forall i: nat | FirstToSettle(rules, i, sni, peer)
        ensures RouteByRules(config, rules, sni, peer).Some? &&
                Says(config, rules[i], peer, RouteByRules(config, rules, sni, peer).value)
      {
        if i > 0 {
          assert !Settles(rules[0], sni, peer);
          assert FirstToSettle(rest, i - 1, sni, peer);
        }
      }
      if forall j | 0 <= j < |rest| :: !Settles(rest[j], sni, peer) {
        if !Settles(rules[0], sni, peer) {
          assert forall j | 0 <= j < |rules| :: j == 0 || rules[j] == rest[j - 1];
        }
      } else {
        var j :| 0 <= j < |rest| && Settles(rest[j], sni, peer);
        assert Settles(rules[j + 1], sni, peer);
      }
    }
  }

  /** The first rule that matches and does not pass on decides; without one, the default rule does. */
  lemma FirstRuleDecides(config: Config, peer: SocketAddr, sni: Option<seq<byte>>)
    requires config.Valid()
    ensures var r := RouteForSni(config, peer, sni);
            (forall i: nat | sni.Some? && FirstToSettle(config.rules, i, sni.value, peer) ::
               Says(config, config.rules[i], peer, r)) &&
            (sni.None? || (forall j | 0 <= j < |config.rules| :: !Settles(config.rules[j], sni.value, peer)) ==>
               Says(config, config.defaultRule, peer, r))
  {
    hide AclDecision, RouteByRules;
    if sni.Some? {
      RulesDecide(config, config.rules, sni.value, peer);
    }
  }

  /** Routing fails exactly when the rule that decides, or else the default rule, decides on no action. */
  lemma RouteFails(config: Config, peer: SocketAddr, sni: Option<seq<byte>>)
    requires config.Valid()
    ensures RouteForSni(config, peer, sni).Failure? <==>
            if sni.Some? && exists i: nat :: FirstToSettle(config.rules, i, sni.value, peer)
            then exists i: nat :: FirstToSettle(config.rules, i, sni.value, peer) &&
                                  AclDecision(config.rules[i].acl, peer) == Unspecified
            else AclDecision(config.defaultRule.acl, peer) == Unspecified
  {
    hide AclDecision, RouteForSni, Acl.Valid;
    FirstRuleDecides(config, peer, sni);
    if sni.Some? && !exists i: nat :: FirstToSettle(config.rules, i, sni.value, peer) {
      NoneSettles(config.rules, |config.rules|, sni.value, peer);
    }
    DefaultFails(config, peer);
  }

  lemma DefaultFails(config: Config, peer: SocketAddr)
    requires config.Valid()
    ensures DefaultRoute(config, peer).Failure? <==> AclDecision(config.defaultRule.acl, peer) == Unspecified
  {
  }

  /** If no rule is the first to settle the matter, none settles it. */
  lemma {:induction false} NoneSettles(rules: seq<Rule>, n: nat, sni: seq<byte>, peer: SocketAddr)
    requires (forall r <- rules :: r.acl.Valid()) && n <= |rules|
    requires !exists i: nat :: FirstToSettle(rules, i, sni, peer)
    ensures forall j | 0 <= j < n :: !Settles(rules[j], sni, peer)
  {
    hide Settles, Acl.Valid;
    if n > 0 {
      NoneSettles(rules, n - 1, sni, peer);
      assert !FirstToSettle(rules, n - 1, sni, peer);
    }
  }

  /** An access list decides on no action exactly when its default says none and no block holds the peer. */
  lemma {:induction false} DecidesNothing(rules: seq<AclRule>, defaultAction: AclAction, peer: Ip6)
    requires forall r <- rules :: r.source.Valid() && r.action != Unspecified
    ensures Decide(rules, defaultAction, peer) == Unspecified <==>
            defaultAction == Unspecified && forall r <- rules :: !r.source.Contains(peer)
    decreases |rules|
  {
    hide Net6.Contains, Net6.Valid;
    if rules != [] {
      DecidesNothing(rules[1..], defaultAction, peer);
      assert forall r :: r in rules <==> r == rules[0] || r in rules[1..];
    }
  }

  /** With a default action in every rule, every name and peer gets a route. */
  lemma SpecifiedRoutes(config: Config, peer: SocketAddr, sni: Option<seq<byte>>)
    requires config.Valid() && config.Specified()
    ensures RouteForSni(config, peer, sni).Success?
  {
    hide RouteForSni, FirstToSettle;
    RouteFails(config, peer, sni);
    forall rule | rule == config.defaultRule || rule in config.rules ensures AclDecision(rule.acl, peer) != Unspecified {
      DecidesNothing(rule.acl.rules, rule.acl.defaultAction, PeerIp(peer));
    }
    assert forall i: nat | sni.Some? && FirstToSettle(config.rules, i, sni.value, peer) ::
        AclDecision(config.rules[i].acl, peer) != Unspecified by {
      SettlerIsRule(config, peer, sni);
    }
  }

  lemma SettlerIsRule(config: Config, peer: SocketAddr, sni: Option<seq<byte>>)
    requires config.Valid()
    ensures forall i: nat | sni.Some? && FirstToSettle(config.rules, i, sni.value, peer) ::
              i < |config.rules| && config.rules[i] in config.rules
  {
  }

  /** A peer and its IPv4-mapped form get the same route. */
  lemma RouteIgnoresMapping(config: Config, peer: SocketAddr, sni: Option<seq<byte>>)
    requires config.Valid()
    ensures RouteForSni(config, Normalize(peer), sni) == RouteForSni(config, peer, sni)
  {
    NormalizeKeepsPeer(peer);
    if sni.Some? {
      RulesIgnoreMapping(config, config.rules, sni.value, peer);
    }
  }

  lemma {:induction false} RulesIgnoreMapping(config: Config, rules: seq<Rule>, sni: seq<byte>, peer: SocketAddr)
    requires forall r <- rules :: r.acl.Valid()
    ensures RouteByRules(config, rules, sni, Normalize(peer)) == RouteByRules(config, rules, sni, peer)
    decreases |rules|
  {
    NormalizeKeepsPeer(peer);
    if rules != [] {
      RulesIgnoreMapping(config, rules[1..], sni, peer);
    }
  }
}
