/** Trust levels, what a run may write at each, and what its output may become. */
module Trust {
  import opened Common
  import opened Scope

  /** Most trusted first, so the least trusted input is the greatest. */
  datatype TrustLevel = Operator | Member | Anonymous | External {
    function Rank(): nat {
      match this
      case Operator => 0
      case Member => 1
      case Anonymous => 2
      case External => 3
    }

    predicate IsUntrusted() {
      Anonymous? || External?
    }

    /** `trust <= min_trust` in the source's ordering: at least as trusted. */
    predicate AtLeast(min: TrustLevel) {
      Rank() <= min.Rank()
    }
  }

  function LeastTrusted(a: TrustLevel, b: TrustLevel): TrustLevel {
    if a.Rank() <= b.Rank() then b else a
  }

  /** The minimum trust over a run's inputs; a run with none is the operator's. */
  function EffectiveTrust(inputs: seq<TrustLevel>): TrustLevel {
    if inputs == [] then Operator else LeastTrusted(inputs[0], EffectiveTrust(inputs[1..]))
  }

  /** A run's origin: its level of trust, and any pages it was about. */
  datatype Trigger = Trigger(trust: TrustLevel, pages: set<string>)

  datatype WriteScope = Anywhere | Pages(routes: set<string>) {
    predicate Allows(route: string) {
      match this
      case Anywhere => CanonicalRoute(route).Some?
      case Pages(routes) =>
        match CanonicalRoute(route)
        case None => false
        case Some(r) => r in routes
    }
  }

  datatype Denial = OutOfScope(route: string) | Forbidden | NotInProject(path: string)

  datatype Restrictions = Restrictions(trust: TrustLevel, scope: WriteScope) {
    predicate IsUntrustedTrigger() {
      trust.IsUntrusted()
    }

    predicate MayAutomerge() {
      !IsUntrustedTrigger()
    }

    predicate MayLinkNewHosts() {
      !IsUntrustedTrigger()
    }

    /** Decides one write. */
    function Permits(target: Target): Result<(), Denial> {
      if !IsUntrustedTrigger() then
        match target
        case Unknown(path) => Err(NotInProject(path))
        case Page(route) => if CanonicalRoute(route).None? then Err(NotInProject(route)) else Ok(())
        case _ => Ok(())
      else
        match target
        case Page(route) => if scope.Allows(route) then Ok(()) else Err(OutOfScope(route))
        case Unknown(path) => Err(NotInProject(path))
        case _ => Err(Forbidden)
    }
  }

  function ForRun(trust: TrustLevel, trigger: Trigger): Restrictions {
    Restrictions(trust, if trust.IsUntrusted() then Pages(trigger.pages) else Anywhere)
  }

  function ForInputs(inputs: seq<TrustLevel>, trigger: Trigger): Restrictions {
    ForRun(LeastTrusted(EffectiveTrust(inputs), trigger.trust), trigger)
  }

  lemma {:induction false} UntrustedInput(inputs: seq<TrustLevel>)
    ensures EffectiveTrust(inputs).IsUntrusted() <==> exists t <- inputs :: t.IsUntrusted()
  {
    if inputs != [] {
      UntrustedInput(inputs[1..]);
      assert inputs == [inputs[0]] + inputs[1..];
    }
  }

  /** One untrusted input, or an untrusted trigger, is what makes a run untrusted; nothing else does. */
  lemma UntrustedIffSomeInput(inputs: seq<TrustLevel>, trigger: Trigger)
    ensures ForInputs(inputs, trigger).IsUntrustedTrigger()
            <==> trigger.trust.IsUntrusted() || exists t <- inputs :: t.IsUntrusted()
  {
    UntrustedInput(inputs);
  }

  /** A run's trust is that of its least trusted input, its trigger among them. */
  lemma TrustIsLeast(inputs: seq<TrustLevel>, trigger: Trigger)
    ensures var trust := ForInputs(inputs, trigger).trust;
            && trigger.trust.AtLeast(trust) && (forall t <- inputs :: t.AtLeast(trust))
            && (trust == trigger.trust || trust in inputs)
  {
    LeastIsLeast(inputs);
    assert inputs == [] ==> EffectiveTrust(inputs) == Operator;
  }

  lemma {:induction false} LeastIsLeast(inputs: seq<TrustLevel>)
    ensures forall t <- inputs :: t.AtLeast(EffectiveTrust(inputs))
    ensures inputs != [] ==> EffectiveTrust(inputs) in inputs
  {
    if inputs != [] {
      LeastIsLeast(inputs[1..]);
      assert inputs == [inputs[0]] + inputs[1..];
      if inputs[1..] == [] {
        assert EffectiveTrust(inputs) == inputs[0];
      }
    }
  }

  /** What such a run may write: exactly the pages its trigger named, however the route is spelled. */
  lemma UntrustedPermitsIff(inputs: seq<TrustLevel>, trigger: Trigger, target: Target)
    requires trigger.trust.IsUntrusted() || exists t <- inputs :: t.IsUntrusted()
    ensures ForInputs(inputs, trigger).Permits(target).Ok? <==>
            target.Page? && CanonicalRoute(target.route).Some? && CanonicalRoute(target.route).value in trigger.pages
  {
    UntrustedInput(inputs);
  }

  /** What any other run may write: whatever is in the project, pages whose route normalises included. */
  lemma TrustedPermitsIff(inputs: seq<TrustLevel>, trigger: Trigger, target: Target)
    requires !trigger.trust.IsUntrusted() && forall t <- inputs :: !t.IsUntrusted()
    ensures ForInputs(inputs, trigger).Permits(target).Ok? <==>
            !target.Unknown? && (target.Page? ==> CanonicalRoute(target.route).Some?)
  {
    UntrustedInput(inputs);
  }

  /** And what a refusal says. */
  lemma DenialsAre(r: Restrictions, target: Target)
    ensures match r.Permits(target)
            case Ok(_) => true
            case Err(OutOfScope(route)) => r.IsUntrustedTrigger() && target == Page(route)
            case Err(Forbidden) => r.IsUntrustedTrigger() && !target.Page? && !target.Unknown?
            case Err(NotInProject(path)) =>
              target == Unknown(path) || (target == Page(path) && CanonicalRoute(path).None? && !r.IsUntrustedTrigger())
  {
  }

  /** Routes that name the same segments get the same answer from every run. */
  lemma SameSegmentsSameAnswer(r: Restrictions, a: string, b: string)
    requires RouteShaped(a) && RouteShaped(b)
    requires Named(Text.Split(a, {'/'})) == Named(Text.Split(b, {'/'}))
    ensures r.scope.Allows(a) == r.scope.Allows(b)
    ensures r.Permits(Page(a)).Ok? == r.Permits(Page(b)).Ok?
  {
    SameRouteIffSameSegments(a, b);
  }
}

/** Where a run's output goes. */
module Policies {
  import opened Trust

  datatype Policy = Proposal | AutomergeIfVerified | Direct

  datatype Signals = Signals(
    validatePassed: bool,
    verifyPassed: bool,
    ciPassed: bool,
    gatePassed: bool,
    withinLimits: bool,
    adminEnabledDirect: bool,
    branchProtectionPermits: bool)
  {
    predicate Verified() {
      validatePassed && verifyPassed && ciPassed && gatePassed && withinLimits
    }
  }

  datatype Outcome = Review | Automerge | DirectPush

  datatype Decision = Decision(outcome: Outcome, configured: Policy, downgraded: bool)

  function AvailableTo(r: Restrictions): set<Policy> {
    if r.MayAutomerge() then {Proposal, AutomergeIfVerified, Direct} else {Proposal}
  }

  function ExternalContentDowngrade(configured: Policy): Decision {
    Decision(Review, configured, true)
  }

  function Decide(configured: Policy, r: Restrictions, signals: Signals): Decision {
    if configured !in AvailableTo(r) then Decision(Review, configured, true)
    else match configured
      case Proposal => Decision(Review, configured, false)
      case AutomergeIfVerified =>
        if signals.Verified() then Decision(Automerge, configured, false)
        else Decision(Review, configured, true)
      case Direct =>
        if !signals.adminEnabledDirect then Decision(Review, configured, true)
        else if !signals.branchProtectionPermits then Decision(Review, configured, true)
        else if !signals.Verified() then Decision(Review, configured, true)
        else Decision(DirectPush, configured, false)
  }
}
