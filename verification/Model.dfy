/**
 * The report model. Records keep the fields some modelled code reads; `rest` stands for the fields it
 * only copies. Optional pointers are options, times are nanoseconds, and enumerations that the source
 * compares as strings stay strings.
 */
module Model {
  import opened Text

  type BranchID = string
  type CheckID = string
  type ClaimID = string
  type EntityID = string
  type FindingID = string
  type LimitationID = string
  type ObservationID = string
  type RuleID = string
  type VantageID = string
  type VisibilityID = string

  // ---------------------------------------------------------------- derived records

  datatype EvidenceKind =
    | ObservationEvidence
    | ClaimEvidence
    | VisibilityEvidence
    | AssertionEvidence
    | OtherEvidence(name: string)
  {
    predicate Valid() { !OtherEvidence? }
  }

  datatype EvidenceRef = EvidenceRef(
    kind: EvidenceKind,
    observationID: Option<string>,
    claimID: Option<ClaimID>,
    visibilityID: Option<string>,
    assertionID: Option<string>)

  datatype Level = Observed | Inferred | Suspected | OtherLevel(name: string)

  datatype FindingKind = Blocker | OtherFinding(name: string)

  datatype Selection = NotSelected | GlobalPrimary | BranchPrimary | Additional | OtherSelection(name: string)

  datatype Statement = HostnameMismatch | TcpRefused | NoListener | OtherStatement(name: string)

  datatype HostnameMismatchParameters = HostnameMismatchParameters(
    peerEntityID: EntityID, hostname: string, verificationTime: int, trustSource: string)

  datatype TcpRefusedParameters = TcpRefusedParameters(
    endpointEntityID: EntityID, vantageID: VantageID, observedAt: int)

  datatype ListenerAbsentParameters = ListenerAbsentParameters(
    namespaceEntityID: EntityID, vantageID: VantageID, protocol: string, family: string, binding: string, port: nat)

  datatype ClaimParameters = ClaimParameters(
    kind: Statement,
    hostnameMismatch: Option<HostnameMismatchParameters>,
    tcpRefused: Option<TcpRefusedParameters>,
    listenerAbsent: Option<ListenerAbsentParameters>)

  datatype ListenerScope = ListenerScope(
    namespaceEntityID: EntityID,
    protocol: string,
    family: string,
    binding: string,
    portStart: nat,
    portEnd: nat,
    ownershipRequired: bool)

  datatype VisibilityScope = VisibilityScope(kind: string, listener: Option<ListenerScope>)

  datatype RequirementKind =
    | ObservationRequired
    | VisibilityRequired
    | VantageRequired
    | OtherRequirement(name: string)

  datatype MissingEvidence = MissingEvidence(
    kind: RequirementKind,
    observationKind: Option<string>,
    subjectKind: Option<string>,
    scope: Option<VisibilityScope>,
    vantageID: Option<VantageID>)

  datatype Claim = Claim(
    claimID: ClaimID,
    statement: Statement,
    level: Level,
    subjects: seq<EntityID>,
    branchIDs: seq<BranchID>,
    parameters: ClaimParameters,
    supporting: seq<EvidenceRef>,
    contradicting: seq<EvidenceRef>,
    missing: seq<MissingEvidence>,
    ruleID: RuleID)

  datatype PathPosition = PathPosition(branchID: BranchID, position: nat)

  datatype Limitation = Limitation(limitationID: LimitationID, code: string, scopeKind: string, rest: string)

  datatype Finding = Finding(
    findingID: FindingID,
    kind: FindingKind,
    title: string,
    level: Level,
    branchIDs: seq<BranchID>,
    positions: seq<PathPosition>,
    claimIDs: seq<ClaimID>,
    ruleID: RuleID,
    limitations: seq<Limitation>,
    experiments: seq<string>,
    selection: Selection)
  {
    /** A blocker whose level is observed or inferred: the only kind of finding that may be selected. */
    predicate ConfirmedBlocker() { kind == Blocker && (level == Observed || level == Inferred) }
  }

  // ---------------------------------------------------------------- evidence records

  datatype Branch = Branch(branchID: BranchID, parent: Option<BranchID>, edges: seq<string>, goal: string)

  datatype VantagePoint = VantagePoint(
    vantageID: VantageID, kind: string, hostInode: Option<nat>, limitations: seq<Limitation>, rest: string)

  datatype Capability = Capability(capabilityID: string, rest: string)

  datatype Assertion = Assertion(assertionID: string, rest: string)

  datatype Address = NoAddress | V4(bits: nat) | V6(bits: nat, zone: string)

  datatype Endpoint = Endpoint(address: Address, port: nat, transport: string)

  datatype Entity = Entity(
    entityID: EntityID,
    kind: string,
    namespaceInode: Option<nat>,
    listener: Option<Endpoint>,
    endpoint: Option<Endpoint>,
    rest: string)

  datatype PathEdge = PathEdge(edgeID: string, refs: seq<EvidenceRef>, rest: string)

  datatype CheckDefinition = CheckDefinition(
    checkID: CheckID, kind: string, dependencies: seq<CheckID>, capabilities: seq<string>, rest: string)

  datatype CheckExecution = CheckExecution(
    executionID: string,
    checkID: CheckID,
    branchID: Option<BranchID>,
    lifecycle: string,
    verdict: string,
    reason: Option<string>,
    observationIDs: seq<ObservationID>,
    visibilityIDs: seq<VisibilityID>,
    rest: string)

  datatype InventoryEntry = InventoryEntry(
    listenerEntityID: EntityID, namespaceEntityID: EntityID, protocol: string, family: string, binding: string, port: nat)

  datatype InventoryResult = InventoryResult(
    namespaceEntityID: EntityID, protocol: string, family: string, binding: string, portStart: nat, portEnd: nat, count: nat)

  datatype OwnershipEntry = OwnershipEntry(listenerEntityID: EntityID, processEntityID: Option<EntityID>, result: string)

  datatype Payload = Payload(
    certificateResult: Option<string>,
    httpResultKind: Option<string>,
    entry: Option<InventoryEntry>,
    result: Option<InventoryResult>,
    ownership: Option<OwnershipEntry>,
    rest: string)

  datatype Observation = Observation(
    observationID: ObservationID,
    kind: string,
    subjects: seq<EntityID>,
    vantageID: Option<VantageID>,
    observedAt: int,
    payload: Payload,
    limitations: seq<Limitation>,
    rest: string)

  datatype VisibilityAssessment = VisibilityAssessment(
    visibilityID: VisibilityID,
    subjectKind: string,
    vantageID: VantageID,
    scope: VisibilityScope,
    level: string,
    basis: seq<ObservationID>,
    limitations: seq<Limitation>,
    assessedAt: int)

  datatype Target = Target(scheme: string, hostname: string, effectivePort: nat)

  datatype EvidenceRun = EvidenceRun(
    target: Target,
    requestedScope: string,
    coherenceWindow: int,
    startedAt: Option<int>,
    finishedAt: Option<int>,
    vantages: seq<VantagePoint>,
    capabilities: seq<Capability>,
    assertions: seq<Assertion>,
    entities: seq<Entity>,
    nodes: seq<EntityID>,
    pathEdges: seq<PathEdge>,
    branches: seq<Branch>,
    definitions: seq<CheckDefinition>,
    executions: seq<CheckExecution>,
    observations: seq<Observation>,
    visibility: seq<VisibilityAssessment>,
    limitations: seq<Limitation>,
    rest: string)

  /** The rules that were evaluated. */
  datatype Evaluation = Evaluation(ruleIDs: seq<RuleID>, rest: string)

  datatype EvaluatedRun = EvaluatedRun(
    evidence: EvidenceRun, evaluation: Evaluation, claims: seq<Claim>, findings: seq<Finding>)

  // ---------------------------------------------------------------- issues

  datatype Code =
    | CycleCode
    | DuplicateCandidateKeyCode
    | DuplicateFieldCode
    | DuplicateIdCode
    | ForwardClaimCode
    | CrossRuleClaimCode
    | GlobalPrimaryCode
    | InvalidJsonCode
    | InvalidValueCode
    | JustificationMissingCode
    | KindMismatchCode
    | MissingFieldCode
    | NewerMinorIgnoredCode
    | ReferenceMissingCode
    | RuleMismatchCode
    | ScopeMismatchCode
    | SupportLevelCode
    | UnknownEnumCode
    | UnknownFieldCode
    | UnknownUnionKindCode
    | VantageMismatchCode
    | VisibilityInsufficientCode

  datatype Issue = Issue(code: Code, pointer: string, message: string)
}
