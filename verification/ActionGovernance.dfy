/** The pure policy decision on an external action: who may do what without, and with, a capability. */
module ActionGovernance {
  import opened Wrappers
  import opened Text

  const REQUEST_SCHEMA := "kb.action-request.v1"
  const CAPABILITY_SCHEMA := "kb.action-capability.v1"

  datatype ActionKind = Read | Create | Update | Delete | Purchase | Contract | Publish | Deploy

  datatype RiskClass = ReadOnly | ReversibleWrite | Destructive | Billable | LegalContractual | PublicSecuritySensitive

  datatype CostEnvelope = CostEnvelope(currency: string, maxMinorUnits: nat)

  datatype ActionRequest = ActionRequest(
    schema: string,
    actor: string,
    clientSurface: string,
    action: ActionKind,
    resourceType: string,
    target: string,
    risk: RiskClass,
    reversible: bool,
    cost: Option<CostEnvelope>,
    idempotencyKey: string,
    expiresAt: int,
    justification: string)

  datatype ActionPolicy = ActionPolicy(
    allowedActions: seq<ActionKind>,
    targetPrefixes: seq<string>,
    allowReversibleWrites: bool,
    maxCost: Option<CostEnvelope>)

  datatype CapabilityLease = CapabilityLease(
    schema: string,
    grantId: string,
    requestHash: string,
    action: ActionKind,
    target: string,
    expiresAt: int,
    remainingUses: nat,
    maxCost: Option<CostEnvelope>)

  datatype PastExecution = PastExecution(requestHash: string, idempotencyKey: string)

  datatype Authorization = StandingPolicy | Capability(grantId: string)

  datatype Decision =
    | Allow(authorization: Authorization)
    | Deny(reason: string)
    | RequireHuman(reason: string)

  // ---- currencies ----

  predicate AsciiAlphabetic(c: char)
  {
    'a' <= c <= 'z' || 'A' <= c <= 'Z'
  }

  function AsciiLower(c: char): char
  {
    if 'A' <= c <= 'Z' then ((c as int) + 32) as char else c
  }

  predicate SameCurrency(a: CostEnvelope, b: CostEnvelope)
  {
    |a.currency| == |b.currency|
    && forall i :: 0 <= i < |a.currency| ==> AsciiLower(a.currency[i]) == AsciiLower(b.currency[i])
  }

  predicate ValidCurrency(currency: string)
  {
    |currency| == 3 && forall c :: c in currency ==> AsciiAlphabetic(c)
  }

  // ---- the decision ----

  function Severity(r: RiskClass): nat
  {
    match r
    case ReadOnly => 0
    case ReversibleWrite => 1
    case Destructive => 2
    case Billable => 3
    case LegalContractual => 4
    case PublicSecuritySensitive => 5
  }

  function MinimumRisk(action: ActionKind, reversible: bool): RiskClass
  {
    match action
    case Read => ReadOnly
    case Create => if reversible then ReversibleWrite else Destructive
    case Update => if reversible then ReversibleWrite else Destructive
    case Delete => Destructive
    case Purchase => Billable
    case Contract => LegalContractual
    case Publish => PublicSecuritySensitive
    case Deploy => PublicSecuritySensitive
  }

  predicate Incomplete(r: ActionRequest)
  {
    Blank(r.actor) || Blank(r.clientSurface) || Blank(r.resourceType)
    || Blank(r.target) || Blank(r.idempotencyKey) || Blank(r.justification)
  }

  predicate InScope(target: string, prefixes: seq<string>)
  {
    exists i :: 0 <= i < |prefixes| && prefixes[i] != "" && prefixes[i] <= target
  }

  predicate Replayed(hash: string, key: string, past: seq<PastExecution>)
  {
    exists i :: 0 <= i < |past| && (past[i].requestHash == hash || past[i].idempotencyKey == key)
  }

  /** What the policy says about the cost; None lets the decision go on. */
  function CostUnderPolicy(r: ActionRequest, limit: Option<CostEnvelope>): Option<Decision>
  {
    match r.cost
    case Some(cost) =>
      if !ValidCurrency(cost.currency) then Some(Deny("invalid_cost_currency"))
      else if limit.None? then Some(RequireHuman("policy_has_no_cost_cap"))
      else if !SameCurrency(cost, limit.value) then Some(Deny("policy_cost_currency_mismatch"))
      else if cost.maxMinorUnits > limit.value.maxMinorUnits then Some(RequireHuman("policy_cost_cap_exceeded"))
      else None
    case None =>
      if r.action == Purchase || r.risk == Billable then Some(Deny("billable_action_without_cost")) else None
  }

  function CostUnderLease(r: ActionRequest, limit: Option<CostEnvelope>): Option<Decision>
  {
    match r.cost
    case Some(cost) =>
      if limit.None? then Some(Deny("capability_has_no_cost_cap"))
      else if !SameCurrency(cost, limit.value) then Some(Deny("capability_cost_currency_mismatch"))
      else if cost.maxMinorUnits > limit.value.maxMinorUnits then Some(Deny("capability_cost_cap_exceeded"))
      else None
    case None => None
  }

  function Evaluate(r: ActionRequest, hash: string, policy: ActionPolicy, lease: Option<CapabilityLease>,
                    past: seq<PastExecution>, now: int): Decision
  {
    if r.schema != REQUEST_SCHEMA then Deny("unsupported_request_schema")
    else if Incomplete(r) then Deny("incomplete_request")
    else if ':' !in r.target then Deny("target_not_fully_qualified")
    else if r.expiresAt <= now then Deny("request_expired")
    else if Severity(r.risk) < Severity(MinimumRisk(r.action, r.reversible)) then Deny("risk_understated")
    else if Replayed(hash, r.idempotencyKey, past) then Deny("replay_detected")
    else if r.action !in policy.allowedActions then Deny("action_not_allowed")
    else if !InScope(r.target, policy.targetPrefixes) then Deny("target_out_of_scope")
    else if CostUnderPolicy(r, policy.maxCost).Some? then CostUnderPolicy(r, policy.maxCost).value
    else if r.risk == ReadOnly then Allow(StandingPolicy)
    else if r.risk == ReversibleWrite && r.reversible && policy.allowReversibleWrites then Allow(StandingPolicy)
    else if lease.None? then RequireHuman("capability_required")
    else UnderCapability(r, hash, lease.value, now)
  }

  /** The last checks, of the capability that is shown. */
  function UnderCapability(r: ActionRequest, hash: string, c: CapabilityLease, now: int): Decision
  {
    if c.schema != CAPABILITY_SCHEMA then Deny("unsupported_capability_schema")
    else if c.expiresAt <= now then Deny("capability_expired")
    else if c.remainingUses == 0 then Deny("capability_exhausted")
    else if c.requestHash != hash || c.action != r.action || c.target != r.target then
      Deny("capability_scope_mismatch")
    else if CostUnderLease(r, c.maxCost).Some? then CostUnderLease(r, c.maxCost).value
    else Allow(Capability(c.grantId))
  }

  // ---- what a decision means ----

  /** The cost, if any, fits under a cap of the same currency. */
  predicate Covered(cost: Option<CostEnvelope>, cap: Option<CostEnvelope>)
  {
    cost.Some? ==>
      && cap.Some? && SameLetters(cost.value.currency, cap.value.currency)
      && cost.value.maxMinorUnits <= cap.value.maxMinorUnits
  }

  /** The same character, apart from the case of the letters from A to Z. */
  predicate SameLetter(a: char, b: char)
  {
    || a == b
    || ('A' <= a <= 'Z' && b as int == a as int + 32)
    || ('A' <= b <= 'Z' && a as int == b as int + 32)
  }

  predicate SameLetters(a: string, b: string)
  {
    |a| == |b| && forall i :: 0 <= i < |a| ==> SameLetter(a[i], b[i])
  }

  lemma LowerIsSameLetter(a: char, b: char)
    ensures AsciiLower(a) == AsciiLower(b) <==> SameLetter(a, b)
  {
    assert AsciiLower(a) == AsciiLower(b) <==> AsciiLower(a) as int == AsciiLower(b) as int;
  }

  lemma CurrencyIgnoresCase(a: CostEnvelope, b: CostEnvelope)
    ensures SameCurrency(a, b) <==> SameLetters(a.currency, b.currency)
  {
    hide SameLetter, AsciiLower;
    if |a.currency| == |b.currency| {
      forall i | 0 <= i < |a.currency|
        ensures AsciiLower(a.currency[i]) == AsciiLower(b.currency[i]) <==> SameLetter(a.currency[i], b.currency[i])
      {
        LowerIsSameLetter(a.currency[i], b.currency[i]);
      }
    }
  }

  /** Actions whose honest risk never exceeds what a standing policy can grant. */
  predicate Harmless(r: ActionRequest)
  {
    r.action == Read || ((r.action == Create || r.action == Update) && r.reversible)
  }

  predicate Binding(c: CapabilityLease, r: ActionRequest, hash: string, now: int)
  {
    && c.schema == "kb.action-capability.v1" && now < c.expiresAt && c.remainingUses > 0
    && c.requestHash == hash && c.action == r.action && c.target == r.target
  }

  /** Everything a request needs apart from an authorization. */
  predicate InOrder(r: ActionRequest, hash: string, policy: ActionPolicy, past: seq<PastExecution>, now: int)
  {
    && r.schema == "kb.action-request.v1"
    && NothingBlank(r) && ':' in r.target && now < r.expiresAt
    && HonestRisk(r.action, r.reversible, r.risk)
    && Unseen(hash, r.idempotencyKey, past)
    && r.action in policy.allowedActions && Within(r.target, policy.targetPrefixes)
    && Covered(r.cost, policy.maxCost)
    && if r.cost.Some? then ThreeLetters(r.cost.value.currency) else r.action != Purchase && r.risk != Billable
  }

  predicate NothingBlank(r: ActionRequest)
  {
    forall text :: text in [r.actor, r.clientSurface, r.resourceType, r.target, r.idempotencyKey, r.justification]
      ==> !Blank(text)
  }

  predicate Unseen(hash: string, key: string, past: seq<PastExecution>)
  {
    forall p :: p in past ==> p.requestHash != hash && p.idempotencyKey != key
  }

  /** Some prefix that says something is one of the target. */
  predicate Within(target: string, prefixes: seq<string>)
  {
    exists prefix :: prefix in prefixes && prefix != "" && prefix <= target
  }

  /** The risks that may be declared for an action: no less than what it can do. */
  predicate HonestRisk(action: ActionKind, reversible: bool, risk: RiskClass)
  {
    match action
    case Read => true
    case Create => if reversible then risk != ReadOnly else risk !in {ReadOnly, ReversibleWrite}
    case Update => if reversible then risk != ReadOnly else risk !in {ReadOnly, ReversibleWrite}
    case Delete => risk !in {ReadOnly, ReversibleWrite}
    case Purchase => risk in {Billable, LegalContractual, PublicSecuritySensitive}
    case Contract => risk in {LegalContractual, PublicSecuritySensitive}
    case Publish => risk == PublicSecuritySensitive
    case Deploy => risk == PublicSecuritySensitive
  }

  predicate ThreeLetters(text: string)
  {
    |text| == 3 && forall c :: c in text ==> 'a' <= c <= 'z' || 'A' <= c <= 'Z'
  }

  /** What the standing policy grants to everybody. */
  predicate Standing(r: ActionRequest, policy: ActionPolicy)
  {
    r.risk == ReadOnly || (r.risk == ReversibleWrite && r.reversible && policy.allowReversibleWrites)
  }

  lemma ChecksSpelledOut(r: ActionRequest, hash: string, policy: ActionPolicy, past: seq<PastExecution>)
    ensures Incomplete(r) <==> !NothingBlank(r)
    ensures Severity(MinimumRisk(r.action, r.reversible)) <= Severity(r.risk) <==>
      HonestRisk(r.action, r.reversible, r.risk)
    ensures Replayed(hash, r.idempotencyKey, past) <==> !Unseen(hash, r.idempotencyKey, past)
    ensures InScope(r.target, policy.targetPrefixes) <==> Within(r.target, policy.targetPrefixes)
  {
    var texts := [r.actor, r.clientSurface, r.resourceType, r.target, r.idempotencyKey, r.justification];
    assert texts[0] in texts && texts[1] in texts && texts[2] in texts && texts[3] in texts && texts[4] in texts;
    assert texts[5] in texts;
    if i :| 0 <= i < |policy.targetPrefixes| && policy.targetPrefixes[i] != "" && policy.targetPrefixes[i] <= r.target {
      assert policy.targetPrefixes[i] in policy.targetPrefixes;
    }
    if i :| 0 <= i < |past| && (past[i].requestHash == hash || past[i].idempotencyKey == r.idempotencyKey) {
      assert past[i] in past;
    }
  }

  lemma CostsSpelledOut(r: ActionRequest, policy: ActionPolicy, lease: Option<CapabilityLease>)
    ensures CostUnderPolicy(r, policy.maxCost).None? <==>
      && Covered(r.cost, policy.maxCost)
      && if r.cost.Some? then ThreeLetters(r.cost.value.currency) else r.action != Purchase && r.risk != Billable
    ensures lease.Some? ==> (CostUnderLease(r, lease.value.maxCost).None? <==> Covered(r.cost, lease.value.maxCost))
    ensures CostUnderPolicy(r, policy.maxCost).Some? ==> !CostUnderPolicy(r, policy.maxCost).value.Allow?
    ensures lease.Some? && CostUnderLease(r, lease.value.maxCost).Some? ==>
      !CostUnderLease(r, lease.value.maxCost).value.Allow?
  {
    hide SameCurrency, SameLetters;
    if r.cost.Some? {
      if policy.maxCost.Some? {
        CurrencyIgnoresCase(r.cost.value, policy.maxCost.value);
      }
      if lease.Some? && lease.value.maxCost.Some? {
        CurrencyIgnoresCase(r.cost.value, lease.value.maxCost.value);
      }
    }
  }

  /** The order of the checks decides only the reason of a refusal, not what is allowed. */
  lemma AllowedIffInOrderAndAuthorised(r: ActionRequest, hash: string, policy: ActionPolicy,
                                       lease: Option<CapabilityLease>, past: seq<PastExecution>, now: int)
    ensures Evaluate(r, hash, policy, lease, past, now) == Allow(StandingPolicy) <==>
      InOrder(r, hash, policy, past, now) && Standing(r, policy)
    ensures (exists id :: Evaluate(r, hash, policy, lease, past, now) == Allow(Capability(id)))
       <==> InOrder(r, hash, policy, past, now) && !Standing(r, policy)
            && lease.Some? && Binding(lease.value, r, hash, now) && Covered(r.cost, lease.value.maxCost)
  {
    hide Covered, CostUnderPolicy, CostUnderLease, Incomplete, Severity, MinimumRisk, HonestRisk, Replayed, InScope;
    hide ThreeLetters, Blank, NothingBlank, Unseen, Within;
    ChecksSpelledOut(r, hash, policy, past);
    CostsSpelledOut(r, policy, lease);
    if lease.Some? && InOrder(r, hash, policy, past, now) && !Standing(r, policy) &&
      Binding(lease.value, r, hash, now) && Covered(r.cost, lease.value.maxCost) {
      assert Evaluate(r, hash, policy, lease, past, now) == Allow(Capability(lease.value.grantId));
    }
  }

  // ---- the reason of a refusal ----

  /** What can be objected to a request, in the order in which it is objected. */
  datatype Objection =
    | UnknownSchema | IncompleteRequest | UnqualifiedTarget | RequestExpired | RiskUnderstated | ReplayDetected
    | ActionNotAllowed | TargetOutOfScope
    | InvalidCurrency | NoPolicyCap | PolicyCurrency | PolicyCapExceeded | BillableWithoutCost
    | NoCapability | CapabilitySchema | CapabilityExpired | CapabilityExhausted | CapabilityScope
    | NoCapabilityCap | CapabilityCurrency | CapabilityCapExceeded

  /** Whether the objection can be raised, whatever else is the matter. */
  predicate Objectionable(o: Objection, r: ActionRequest, hash: string, policy: ActionPolicy,
                          lease: Option<CapabilityLease>, past: seq<PastExecution>, now: int)
  {
    match o
    case UnknownSchema => r.schema != "kb.action-request.v1"
    case IncompleteRequest => !NothingBlank(r)
    case UnqualifiedTarget => ':' !in r.target
    case RequestExpired => r.expiresAt <= now
    case RiskUnderstated => !HonestRisk(r.action, r.reversible, r.risk)
    case ReplayDetected => !Unseen(hash, r.idempotencyKey, past)
    case ActionNotAllowed => r.action !in policy.allowedActions
    case TargetOutOfScope => !Within(r.target, policy.targetPrefixes)
    case InvalidCurrency => r.cost.Some? && !ThreeLetters(r.cost.value.currency)
    case NoPolicyCap => r.cost.Some? && policy.maxCost.None?
    case PolicyCurrency => r.cost.Some? && policy.maxCost.Some? &&
      !SameLetters(r.cost.value.currency, policy.maxCost.value.currency)
    case PolicyCapExceeded => r.cost.Some? && policy.maxCost.Some? &&
      policy.maxCost.value.maxMinorUnits < r.cost.value.maxMinorUnits
    case BillableWithoutCost => r.cost.None? && (r.action == Purchase || r.risk == Billable)
    case NoCapability => !Standing(r, policy) && lease.None?
    case _ => !Standing(r, policy) && lease.Some? && OfCapability(o, r, hash, lease.value, now)
  }

  /** Whether the objection can be raised against the capability. */
  predicate OfCapability(o: Objection, r: ActionRequest, hash: string, c: CapabilityLease, now: int)
  {
    match o
    case CapabilitySchema => c.schema != "kb.action-capability.v1"
    case CapabilityExpired => c.expiresAt <= now
    case CapabilityExhausted => c.remainingUses == 0
    case CapabilityScope => c.requestHash != hash || c.action != r.action || c.target != r.target
    case NoCapabilityCap => r.cost.Some? && c.maxCost.None?
    case CapabilityCurrency =>
      r.cost.Some? && c.maxCost.Some? && !SameLetters(r.cost.value.currency, c.maxCost.value.currency)
    case CapabilityCapExceeded =>
      r.cost.Some? && c.maxCost.Some? && c.maxCost.value.maxMinorUnits < r.cost.value.maxMinorUnits
    case _ => false
  }

  function Place(o: Objection): nat
  {
    match o
    case UnknownSchema => 0 case IncompleteRequest => 1 case UnqualifiedTarget => 2 case RequestExpired => 3
    case RiskUnderstated => 4 case ReplayDetected => 5 case ActionNotAllowed => 6 case TargetOutOfScope => 7
    case InvalidCurrency => 8 case NoPolicyCap => 9 case PolicyCurrency => 10 case PolicyCapExceeded => 11
    case BillableWithoutCost => 12 case NoCapability => 13 case CapabilitySchema => 14 case CapabilityExpired => 15
    case CapabilityExhausted => 16 case CapabilityScope => 17 case NoCapabilityCap => 18
    case CapabilityCurrency => 19 case CapabilityCapExceeded => 20
  }

  /** What is answered to an objection: a refusal, or a call for a human. */
  function Answer(o: Objection): Decision
  {
    match o
    case UnknownSchema => Deny("unsupported_request_schema")
    case IncompleteRequest => Deny("incomplete_request")
    case UnqualifiedTarget => Deny("target_not_fully_qualified")
    case RequestExpired => Deny("request_expired")
    case RiskUnderstated => Deny("risk_understated")
    case ReplayDetected => Deny("replay_detected")
    case ActionNotAllowed => Deny("action_not_allowed")
    case TargetOutOfScope => Deny("target_out_of_scope")
    case InvalidCurrency => Deny("invalid_cost_currency")
    case NoPolicyCap => RequireHuman("policy_has_no_cost_cap")
    case PolicyCurrency => Deny("policy_cost_currency_mismatch")
    case PolicyCapExceeded => RequireHuman("policy_cost_cap_exceeded")
    case BillableWithoutCost => Deny("billable_action_without_cost")
    case NoCapability => RequireHuman("capability_required")
    case CapabilitySchema => Deny("unsupported_capability_schema")
    case CapabilityExpired => Deny("capability_expired")
    case CapabilityExhausted => Deny("capability_exhausted")
    case CapabilityScope => Deny("capability_scope_mismatch")
    case NoCapabilityCap => Deny("capability_has_no_cost_cap")
    case CapabilityCurrency => Deny("capability_cost_currency_mismatch")
    case CapabilityCapExceeded => Deny("capability_cost_cap_exceeded")
  }

  lemma RequestIsAnswered(r: ActionRequest, hash: string, policy: ActionPolicy, lease: Option<CapabilityLease>,
                          past: seq<PastExecution>, now: int, o: Objection)
    requires Objectionable(o, r, hash, policy, lease, past, now)
    requires forall p: Objection :: Place(p) < Place(o) ==> !Objectionable(p, r, hash, policy, lease, past, now)
    requires Place(o) < 8
    ensures Evaluate(r, hash, policy, lease, past, now) == Answer(o)
  {
    hide CostUnderPolicy, Standing;
    hide Incomplete, Severity, MinimumRisk, HonestRisk, Replayed, InScope, Covered, UnderCapability;
    hide ThreeLetters, Blank, NothingBlank, Unseen, Within, SameLetters, SameCurrency, ValidCurrency;
    ChecksSpelledOut(r, hash, policy, past);
    assert Place(o) > 0 ==> !Objectionable(UnknownSchema, r, hash, policy, lease, past, now);
    assert Place(o) > 1 ==> !Objectionable(IncompleteRequest, r, hash, policy, lease, past, now);
    assert Place(o) > 2 ==> !Objectionable(UnqualifiedTarget, r, hash, policy, lease, past, now);
    assert Place(o) > 3 ==> !Objectionable(RequestExpired, r, hash, policy, lease, past, now);
    assert Place(o) > 4 ==> !Objectionable(RiskUnderstated, r, hash, policy, lease, past, now);
    assert Place(o) > 5 ==> !Objectionable(ReplayDetected, r, hash, policy, lease, past, now);
    assert Place(o) > 6 ==> !Objectionable(ActionNotAllowed, r, hash, policy, lease, past, now);
  }

  /** With nothing to object to the request itself, its cost and its authorization decide. */
  lemma PastTheRequest(r: ActionRequest, hash: string, policy: ActionPolicy, lease: Option<CapabilityLease>,
                       past: seq<PastExecution>, now: int, o: Objection)
    requires Objectionable(o, r, hash, policy, lease, past, now)
    requires forall p: Objection :: Place(p) < Place(o) ==> !Objectionable(p, r, hash, policy, lease, past, now)
    requires Place(o) >= 8
    ensures var cost := CostUnderPolicy(r, policy.maxCost);
      Evaluate(r, hash, policy, lease, past, now) ==
        if cost.Some? then cost.value
        else if Standing(r, policy) then Allow(StandingPolicy)
        else if lease.None? then RequireHuman("capability_required")
        else UnderCapability(r, hash, lease.value, now)
  {
    hide CostUnderPolicy, Answer;
    hide Incomplete, Severity, MinimumRisk, HonestRisk, Replayed, InScope, Covered, UnderCapability;
    hide ThreeLetters, Blank, NothingBlank, Unseen, Within, SameLetters, SameCurrency, ValidCurrency;
    ChecksSpelledOut(r, hash, policy, past);
    assert Place(o) > 0 ==> !Objectionable(UnknownSchema, r, hash, policy, lease, past, now);
    assert Place(o) > 1 ==> !Objectionable(IncompleteRequest, r, hash, policy, lease, past, now);
    assert Place(o) > 2 ==> !Objectionable(UnqualifiedTarget, r, hash, policy, lease, past, now);
    assert Place(o) > 3 ==> !Objectionable(RequestExpired, r, hash, policy, lease, past, now);
    assert Place(o) > 4 ==> !Objectionable(RiskUnderstated, r, hash, policy, lease, past, now);
    assert Place(o) > 5 ==> !Objectionable(ReplayDetected, r, hash, policy, lease, past, now);
    assert Place(o) > 6 ==> !Objectionable(ActionNotAllowed, r, hash, policy, lease, past, now);
    assert Place(o) > 7 ==> !Objectionable(TargetOutOfScope, r, hash, policy, lease, past, now);
  }

  lemma CostIsAnswered(r: ActionRequest, hash: string, policy: ActionPolicy, lease: Option<CapabilityLease>,
                       past: seq<PastExecution>, now: int, o: Objection)
    requires Objectionable(o, r, hash, policy, lease, past, now)
    requires forall p: Objection :: Place(p) < Place(o) ==> !Objectionable(p, r, hash, policy, lease, past, now)
    requires 8 <= Place(o) <= 13
    ensures Evaluate(r, hash, policy, lease, past, now) == Answer(o)
  {
    hide Evaluate;
    hide Incomplete, Severity, MinimumRisk, HonestRisk, Replayed, InScope, Covered, UnderCapability;
    hide ThreeLetters, Blank, NothingBlank, Unseen, Within, SameLetters, SameCurrency, ValidCurrency;
    PastTheRequest(r, hash, policy, lease, past, now, o);
    if r.cost.Some? {
      CurrencySpelledOut(r.cost.value.currency);
      if policy.maxCost.Some? {
        CurrencyIgnoresCase(r.cost.value, policy.maxCost.value);
      }
    }
    assert Place(o) > 8 ==> !Objectionable(InvalidCurrency, r, hash, policy, lease, past, now);
    assert Place(o) > 9 ==> !Objectionable(NoPolicyCap, r, hash, policy, lease, past, now);
    assert Place(o) > 10 ==> !Objectionable(PolicyCurrency, r, hash, policy, lease, past, now);
    assert Place(o) > 11 ==> !Objectionable(PolicyCapExceeded, r, hash, policy, lease, past, now);
    assert Place(o) > 12 ==> !Objectionable(BillableWithoutCost, r, hash, policy, lease, past, now);
  }

  lemma PastTheCost(r: ActionRequest, hash: string, policy: ActionPolicy, lease: Option<CapabilityLease>,
                    past: seq<PastExecution>, now: int, o: Objection)
    requires Objectionable(o, r, hash, policy, lease, past, now)
    requires forall p: Objection :: Place(p) < Place(o) ==> !Objectionable(p, r, hash, policy, lease, past, now)
    requires Place(o) > 13
    ensures lease.Some? && !Standing(r, policy)
    ensures Evaluate(r, hash, policy, lease, past, now) == UnderCapability(r, hash, lease.value, now)
  {
    hide Evaluate, Answer;
    hide Incomplete, Severity, MinimumRisk, HonestRisk, Replayed, InScope, Covered, UnderCapability;
    hide ThreeLetters, Blank, NothingBlank, Unseen, Within, SameLetters, SameCurrency, ValidCurrency;
    PastTheRequest(r, hash, policy, lease, past, now, o);
    if r.cost.Some? {
      CurrencySpelledOut(r.cost.value.currency);
      if policy.maxCost.Some? {
        CurrencyIgnoresCase(r.cost.value, policy.maxCost.value);
      }
    }
    assert Place(o) > 8 ==> !Objectionable(InvalidCurrency, r, hash, policy, lease, past, now);
    assert Place(o) > 9 ==> !Objectionable(NoPolicyCap, r, hash, policy, lease, past, now);
    assert Place(o) > 10 ==> !Objectionable(PolicyCurrency, r, hash, policy, lease, past, now);
    assert Place(o) > 11 ==> !Objectionable(PolicyCapExceeded, r, hash, policy, lease, past, now);
    assert Place(o) > 12 ==> !Objectionable(BillableWithoutCost, r, hash, policy, lease, past, now);
    assert Place(o) > 13 ==> !Objectionable(NoCapability, r, hash, policy, lease, past, now);
  }

  lemma NotOfCapability(o: Objection, r: ActionRequest, hash: string, c: CapabilityLease, now: int)
    ensures Place(o) <= 13 ==> !OfCapability(o, r, hash, c, now)
  {
  }

  lemma LeaseCostIsAnswered(r: ActionRequest, hash: string, c: CapabilityLease, now: int, o: Objection)
    requires OfCapability(o, r, hash, c, now) && Place(o) >= 18
    requires forall p: Objection :: 18 <= Place(p) < Place(o) ==> !OfCapability(p, r, hash, c, now)
    ensures CostUnderLease(r, c.maxCost) == Some(Answer(o))
  {
    hide SameLetters, SameCurrency;
    if r.cost.Some? && c.maxCost.Some? {
      CurrencyIgnoresCase(r.cost.value, c.maxCost.value);
    }
    assert Place(o) > 18 ==> !OfCapability(NoCapabilityCap, r, hash, c, now);
    assert Place(o) > 19 ==> !OfCapability(CapabilityCurrency, r, hash, c, now);
  }

  lemma CapabilityIsAnswered(r: ActionRequest, hash: string, c: CapabilityLease, now: int, o: Objection)
    requires OfCapability(o, r, hash, c, now)
    requires forall p: Objection :: Place(p) < Place(o) ==> !OfCapability(p, r, hash, c, now)
    ensures UnderCapability(r, hash, c, now) == Answer(o)
  {
    hide SameLetters, CostUnderLease;
    if Place(o) >= 18 {
      LeaseCostIsAnswered(r, hash, c, now, o);
    }
    assert Place(o) > 14 ==> !OfCapability(CapabilitySchema, r, hash, c, now);
    assert Place(o) > 15 ==> !OfCapability(CapabilityExpired, r, hash, c, now);
    assert Place(o) > 16 ==> !OfCapability(CapabilityExhausted, r, hash, c, now);
    assert Place(o) > 17 ==> !OfCapability(CapabilityScope, r, hash, c, now);
  }

  /** The first objection that can be raised decides the answer. */
  lemma FirstObjectionIsAnswered(r: ActionRequest, hash: string, policy: ActionPolicy, lease: Option<CapabilityLease>,
                                 past: seq<PastExecution>, now: int, o: Objection)
    requires Objectionable(o, r, hash, policy, lease, past, now)
    requires forall p: Objection :: Place(p) < Place(o) ==> !Objectionable(p, r, hash, policy, lease, past, now)
    ensures Evaluate(r, hash, policy, lease, past, now) == Answer(o)
  {
    hide Evaluate, Answer, OfCapability;
    if Place(o) < 8 {
      RequestIsAnswered(r, hash, policy, lease, past, now, o);
    } else if Place(o) <= 13 {
      CostIsAnswered(r, hash, policy, lease, past, now, o);
    } else {
      PastTheCost(r, hash, policy, lease, past, now, o);
      forall p: Objection | Place(p) < Place(o) ensures !OfCapability(p, r, hash, lease.value, now) {
        NotOfCapability(p, r, hash, lease.value, now);
        assert !Objectionable(p, r, hash, policy, lease, past, now);
      }
      CapabilityIsAnswered(r, hash, lease.value, now, o);
    }
  }

  lemma CurrencySpelledOut(currency: string)
    ensures ValidCurrency(currency) <==> ThreeLetters(currency)
  {
  }

  /** Without a capability only harmless actions pass, whatever risk the request declares. */
  lemma StandingPolicyAllowsOnlyHarmless(r: ActionRequest, hash: string, policy: ActionPolicy,
                                         lease: Option<CapabilityLease>, past: seq<PastExecution>, now: int)
    requires Evaluate(r, hash, policy, lease, past, now) == Allow(StandingPolicy)
    ensures Harmless(r) && Covered(r.cost, policy.maxCost) && InScope(r.target, policy.targetPrefixes)
    ensures r.action == Read || ((r.action == Create || r.action == Update) && r.reversible)
    ensures r.risk != ReadOnly ==> policy.allowReversibleWrites && r.reversible
    ensures now < r.expiresAt && !Replayed(hash, r.idempotencyKey, past)
  {
    assert CostUnderPolicy(r, policy.maxCost).None?;
  }

  /** A capability is spent only on the very request it names, within both cost caps, in time, and only when needed. */
  lemma CapabilityAllowsOnlyItsRequest(r: ActionRequest, hash: string, policy: ActionPolicy,
                                       lease: Option<CapabilityLease>, past: seq<PastExecution>, now: int)
    requires Evaluate(r, hash, policy, lease, past, now).Allow?
    requires Evaluate(r, hash, policy, lease, past, now).authorization.Capability?
    ensures lease.Some? && Binding(lease.value, r, hash, now)
    ensures Evaluate(r, hash, policy, lease, past, now) == Allow(Capability(lease.value.grantId))
    ensures Covered(r.cost, policy.maxCost) && Covered(r.cost, lease.value.maxCost)
    ensures Evaluate(r, hash, policy, None, past, now) == RequireHuman("capability_required")
  {
    assert CostUnderPolicy(r, policy.maxCost).None? && CostUnderLease(r, lease.value.maxCost).None?;
  }

  /** Adding a capability never turns a permission into a refusal, nor overrides a refusal by policy. */
  lemma CapabilityOnlyAnswersTheCallForOne(r: ActionRequest, hash: string, policy: ActionPolicy, lease: CapabilityLease,
                                           past: seq<PastExecution>, now: int)
    ensures Evaluate(r, hash, policy, Some(lease), past, now) == Evaluate(r, hash, policy, None, past, now)
       || Evaluate(r, hash, policy, None, past, now) == RequireHuman("capability_required")
    ensures Binding(lease, r, hash, now) && Covered(r.cost, lease.maxCost)
       && Evaluate(r, hash, policy, None, past, now) == RequireHuman("capability_required")
       ==> Evaluate(r, hash, policy, Some(lease), past, now) == Allow(Capability(lease.grantId))
  {
    assert CostUnderLease(r, lease.maxCost).None? || !Covered(r.cost, lease.maxCost);
  }
}
