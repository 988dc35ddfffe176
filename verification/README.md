# RouteDoctor's diagnostic contract in Dafny

RouteDoctor writes reports: evidence collected about a network path, and claims and findings that rules derive
from it. This project models the code that decides which conclusions a report may carry and in what order they
stand, and proves what that code guarantees. Nothing here executes the program; every statement is about the
model, and every model follows the Go code branch by branch.

`dafny verify dfyconfig.toml` checks the whole project.

## Parts

| files | Go code | subject |
|---|---|---|
| `Graphs`, `Justification`, `ClaimValidation`, `CheckDag`, `Explain` | `model/validate_evaluated.go`, `model/validate_base_remaining.go`, `render/explain.go` | the justification graph: cycles, base evidence, accepted runs, explanations |
| `Branches`, `Selection`, `Apply`, `SelectionLaws`, `Status` | `selection/selection.go`, `model/validate_selection.go`, `clientprobe/status.go` | the branch forest, the choice of primary findings, the exit status |
| `Ids`, `CanonicalBranches`, `MissingEvidence`, `Canonical`, `CanonicalRun`, `Canonicalize` | `model/ids.go`, `model/canonicalize.go` | the canonical form of a run |
| `Evaluate`, `EvaluateLaws`, `EvaluateOrder`, `EvaluateRun` | `rules/evaluate.go`, `rules/candidate.go`, `rules/ids.go` | from the rules' candidates to the accepted run |
| `ListenerAbsence`, `ProcFS`, `ProcAttribution`, `LocalDiagnosis`, `LocalAbsence`, `LocalUnique`, `ListenerRule`, `ListenerFinding`, `AlikeAbsence`, `LocalConclusion` | `model/listener_absence.go`, `localdiagnosis/*.go`, `rules/listener/no_matching_listener.go` | from the kernel's socket tables to the conclusion that nothing listens |
| `Pointers`, `WireScan`, `WireLaws` | `schema/v1/decode.go`, `schema/v1/wire_shape.go` | the closed-shape scan of a JSON document (RFC 6901, sections 3 and 4) |
| `TcpStrategies`, `Probe`, `Addresses` | `clientprobe/transport.go`, `clientprobe/probe.go` | concurrent connection attempts and endpoint planning |
| `Text`, `Sorting`, `Model` | `model/*.go`, package `sort` | strings, numerals, sorting, the records |

## How the code is rendered

- A record keeps the fields some modelled code reads; `rest` stands for what is only copied. Optional pointers
  are options, times are nanoseconds as integers, the zero time is `None`, ports and positions are naturals.
  A nil slice and an empty one are the same.
- Strings are compared by code point, which is Go's byte order on UTF-8 text.
- Loops are loops, proved equal to a function or to a property stated outright; slices appended through a
  pointer are returned. `sort.Slice` is a method that promises a permutation, in order when the comparison is
  a strict weak order, and the stable sort when it is total on the elements; callers learn no more.
- Ranging over a Go map takes the keys in an unspecified order.
- Counters that the source prints with `%06d` and `%03d` are unbounded; statements about 64-bit ID numbers say
  so.

## Where the code differs from what is promised for it

- `docs/architecture.md:239` demands a justification path for every claim. The validator passes a claim whose
  supporting list is empty but present (`internal/model/validate_evaluated.go:372-378`):
  `ClaimValidation.UnsupportedClaimIsAccepted`. A supported claim is grounded, and exactly the supported ones
  are: `AcceptedClaimIsGrounded`.
- `compareOptionalString` answers -1 both ways when exactly one side is empty. Two requirements compare below each
  other exactly when their first difference is such a string, and the comparison orders a list exactly when no two
  of its requirements differ that way: `MissingEvidences.BothBelowExactly`, `CompareMissingIsWeakExactly`. The
  requirements the validator passes never do: `CompareMissingIsTotal`.
- Claim and finding IDs compare by number when both are valid and by text otherwise, which is not transitive:
  `Ids.CompareNotTransitive`. `CompareIsWeakExactly` says on which lists it is an order.
- The evaluator registers a claim's key before it checks the claim's references, so a template may cite
  itself; the reference checks then reject the run: `EvaluatorRun.SelfReferencePassesTemplates`,
  `SelfReferenceIsRejected`.
- The time check subtracts with saturation and negates in 64 bits, so an observation 2^63 nanoseconds or more
  before the assessment counts as coherent: `ListenerAbsence.CoherentExactly` gives the exact condition.
- A leaf that chose a primary can lose it to a later leaf's round: `SelectionLaws.LeafLosesPrimary`.
  `ApplyKeepsPrimaries` says exactly which findings stay primary and which leaves end covered.
- The listener rule looks up the path edges that cite its assessment (`branchesFor`), but the evidence validator
  admits observations and assertions alone on an edge, as `docs/architecture.md:461` demands. So its finding is
  attached nowhere and never selected: `ListenerFindings.NoListenerIsNeverSelected`. Were assessments cited, a branch
  that cites one twice would have the whole run rejected: `FindingPassesExactly`.
- The facts of concurrent attempts come back in one order for every interleaving exactly when no two different
  facts share endpoint and mode: `TcpStrategies.DeterministicExactly`.

## Model

| member | source | states |
|---|---|---|
| Justification.ScanReferences | internal/model/validate_evaluated.go:416-435 | from a frame's cursor the scan stops at the first reference to a grey or white claim, passing only over black claims and references that do not resolve |
| Justification.ClaimGraphHasCycle | internal/model/validate_evaluated.go:403-444 | terminates and is true exactly when the supporting claim references, resolved through the ID index, form a cycle; for every claim list, with dangling, repeated and self references |
| Justification.ClaimPathReachesBase | internal/model/validate_evaluated.go:445-483 | a true answer means some reachable claim cites a record that is no claim; a false one means that none does, unless a reachable claim has a reference that dangles or cites the claim itself |
| ClaimValidation.ValidateClaimRefs | internal/model/validate_evaluated.go:329-371 | adds no issue exactly when every reference of the claim has one target of its kind: an existing record, or an earlier claim of the same rule |
| ClaimValidation.ValidateSupport | internal/model/validate_evaluated.go:377-400 | without an issue a supported claim meets its level's demands and reaches base evidence; on resolved references nothing else is demanded |
| ClaimValidation.ValidateClaimGraphs | internal/model/validate_evaluated.go:372-402 | without an issue the claim graph is acyclic and every supported claim reaches base evidence, and on resolved references the converse |
| ClaimValidation.ValidateFindingRefs | internal/model/validate_evaluated.go:485-514 | adds no issue exactly when branches are known and distinct, positions lie on them, and cited claims exist, belong to the finding's rule and, when suspected, leave it unselected |
| ClaimValidation.ValidateReferences | internal/model/validate_evaluated.go:53-162 | the reference phase raises no issue exactly on runs whose claims, claim graph and findings are sound |
| ClaimValidation.NoForwardReferenceNoCycle | internal/model/validate_evaluated.go:363-365 | the absence of forward references alone makes the cycle check false |
| ClaimValidation.AcceptedClaimIsGrounded | internal/model/validate_evaluated.go:329-402 | in an accepted run a claim has supporting references exactly when a strictly descending chain of claims of its rule leads from it to one citing an existing record |
| ClaimValidation.AcceptedFindingIsGrounded | internal/model/validate_evaluated.go:485-514 | every finding of an accepted run reaches base evidence, through its own rule, by each supported claim it cites |
| ClaimValidation.UnsupportedClaimIsAccepted | internal/model/validate_evaluated.go:372-380 | a run with numbered IDs, a listed rule, matching parameters, sound references and an accepted selection, whose finding cites a claim that rests on nothing |
| CheckDag.Visit | internal/model/validate_base_remaining.go:72-90 | the recursive visit fails exactly when the check reaches a dependency cycle, although a failed visit leaves grey checks behind; black checks reach none |
| CheckDag.ValidateCheckDag | internal/model/validate_base_remaining.go:54-95 | appends one issue per unknown dependency, then exactly one per definition whose check can reach a cycle, and no other |
| CheckDag.NoCycleIssueMeansAcyclic | internal/model/validate_base_remaining.go:72-94 | no cycle issue is raised exactly when the dependency graph is acyclic |
| Explaining.ScanRefs | internal/render/explain.go:56-94 | a list of references queues its links to unvisited claims, in order, and keeps the first entry under each new evidence key |
| Explaining.ResolveEntry | internal/render/explain.go:71-92 | an entry holds the last record with the ID of the reference's own kind, if any |
| Explaining.Search | internal/render/explain.go:41-95 | terminates with the claims reachable from the roots, each once, and one entry for each key they cite; or at a reachable claim that does not exist |
| Explaining.OrderEvidence | internal/render/explain.go:99-106 | whatever order the map is ranged in, the entries come out one per key in strictly ascending key order |
| Explaining.KeysAreTotal | internal/render/explain.go:109-126 | evidenceKeyLess is a strict total order |
| Explaining.KeyInjective | internal/render/explain.go:67-67 | on well-formed references the key determines the reference |
| Explaining.BuildExplanation | internal/render/explain.go:23-108 | fails exactly when the finding or a reachable claim is missing, lists the reachable claims once each and their evidence in key order, and never fails for a finding of an accepted run |
| Explaining.AcceptedReachesOnlyClaims | internal/render/explain.go:51-54 | in an accepted run every claim reachable through supporting or contradicting references exists |
| Explaining.AcceptedEvidenceIsExact | internal/render/explain.go:60-106 | in an accepted run the entries are exactly the distinct non-claim references of the listed claims, each with its record |
| Branches.ChainExact | internal/model/validate_selection.go:62-86 | the parent walk of a leaf meets exactly its ancestors and itself, on cyclic parents too |
| Branches.CollectLeaves | internal/selection/selection.go:19-32 | the leaves are the branches no branch names as parent, in list order |
| Branches.IsAncestorOfAll | internal/model/validate_selection.go:62-87 | true exactly when the candidate is an ancestor of, or is, every leaf |
| Branches.FindingBranchPosition | internal/selection/selection.go:124-143 | returns the first branch on the walk up from the leaf that the finding names with a position, and that position |
| Branches.GlobalPrimaryProof | internal/model/validate_selection.go:26-60 | true exactly for a confirmed blocker with an existing branch above every leaf and a position inside it |
| Branches.ValidateSelection | internal/model/validate_selection.go:3-19 | raises no issue exactly when at most one finding is a global primary and it has the proof |
| Branches.TwoIsolatedBranchesNoGlobal | internal/model/validate_selection.go:26-87 | with two branches that have neither parent nor child no finding has a global proof |
| Selecting.SameSymmetric | internal/selection/selection.go:169-218 | saying the same statement is symmetric |
| Selecting.SameTransitive | internal/selection/selection.go:169-218 | and transitive, also across the claims' optional parameters |
| Selecting.DistinctIdsOrder | internal/selection/selection.go:219-224 | valid finding IDs with distinct numbers make lessFinding a strict total order on the findings |
| SelectionApply.CandidatesExact | internal/selection/selection.go:36-50 | the candidates of a leaf are exactly the attached confirmed blockers inside their branch, once each, with their position |
| SelectionApply.LeafRound | internal/selection/selection.go:35-94 | some primary exists if any blocker is in range; primaries sit at the minimum, say different things, represent every demoted finding, and are observed where an observed finding says the same; nothing else is written |
| SelectionApply.LeafRounds | internal/selection/selection.go:35-94 | after all leaves only confirmed blockers are selected, as the last leaf with the finding at its minimum decides; an issue is raised exactly for a position outside its branch |
| SelectionApply.Promote | internal/selection/selection.go:96-120 | of the findings with a global proof exactly one, the first by level, rule and number, becomes global primary, the others additional |
| SelectionApply.Apply | internal/selection/selection.go:11-122 | changes selections only, selects confirmed blockers alone and of them only what some leaf has in range or what has a global proof, promotes one wherever one has such a proof, yields a selection the validator accepts, and equals the selection function on findings with an order |
| SelectionLaws.ApplyReordered | internal/selection/selection.go:11-122 | of two calls on the same findings in two orders, with an order among the findings, each finding gets the same selection from both |
| SelectionLaws.ApplyById | internal/selection/selection.go:11-122 | with valid finding IDs of distinct numbers, both calls give each finding ID the same selection |
| SelectionLaws.ApplyTwice | internal/selection/selection.go:11-17 | a second call on the result of the first changes nothing |
| SelectionLaws.NoGlobalAcrossIsolatedBranches | internal/model/validate_selection.go:3-60 | an accepted selection has no global primary where two branches have neither parent nor child |
| SelectionLaws.ApplyAcrossIsolatedBranches | internal/selection/selection.go:96-120 | so no call on such a run, whatever its findings, promotes one |
| SelectionLaws.SomeFindingIsChosen | internal/selection/selection.go:51-93 | a leaf with a blocker in range chooses one in its round |
| SelectionLaws.ChosenIsNotOutranked | internal/selection/selection.go:61-91 | a leaf chooses exactly the findings at its minimum that no other there outranks: one that says the same and is observed where they are not, or of the same level and smaller |
| SelectionLaws.ApplyKeepsPrimaries | internal/selection/selection.go:35-120 | a finding ends as branch primary exactly when it has no global proof and is not outranked at the last leaf with it at its minimum; a leaf ends covered exactly when some finding has a global proof or one attached above it is not outranked at its own last leaf |
| SelectionLaws.OneLeafKeeps | internal/selection/selection.go:76-91 | a finding that one leaf alone has in range keeps what that leaf gave it |
| SelectionLaws.LeafLosesPrimary | internal/selection/selection.go:76-91 | on any two root branches: numbered findings of which the first leaf chooses one and the second demotes it, so that the call leaves the first leaf uncovered |
| Status.LeafBranches | internal/clientprobe/status.go:103-121 | the HTTP leaves are the childless branches whose goal is an HTTP response |
| Status.IsAncestor | internal/clientprobe/status.go:123-140 | true exactly when one or more parent steps lead from the leaf to the candidate, on cyclic parents too |
| Status.ReadExecutions | internal/clientprobe/status.go:27-57 | a branch is marked passed or incomplete exactly when some execution on it shows that |
| Status.CollectCovered | internal/clientprobe/status.go:73-94 | a leaf is covered exactly when a finding covers it |
| Status.ComputeStatus | internal/clientprobe/status.go:13-101 | the loops compute the status the conditions on leaves, limitations and findings define |
| Status.GlobalIsAbove | internal/clientprobe/status.go:78-83 | where the validator accepts the selection, a global primary is attached to an ancestor-or-self of every HTTP leaf |
| Status.BlockedExactly | internal/clientprobe/status.go:58-100 | in runs with an accepted selection BLOCKED holds exactly when HTTP leaves exist, none is satisfied, nothing is partial or incomplete, and each has a primary confirmed blocker on itself or an ancestor |
| Status.ShortcutNeedsValidSelection | internal/clientprobe/status.go:78-83 | an unattached global primary covers leaves it does not block, in a run the validator rejects |
| Ids.GeneratedRoundTrip | internal/model/ids.go:136-141 | a printed number within 64 bits is a valid ID and parses back to itself |
| Ids.GeneratedIdInjective | internal/model/validate_evaluated.go:174-180 | distinct numbers print as distinct IDs |
| Ids.CompareGenerated | internal/model/ids.go:145-158 | printed IDs compare as their numbers, past 999999 too |
| Ids.CompareIsWeakExactly | internal/model/ids.go:145-158 | the comparison puts a list of IDs in a strict weak order exactly when no invalid ID stands, as text, between two valid ones whose numbers are not in that order |
| Ids.CompareNotTransitive | internal/model/ids.go:145-158 | two valid IDs and an invalid one that compare in a circle |
| Ids.CompareTies | internal/model/ids.go:145-158 | two IDs compare equal exactly when they are equal or valid with one number; swapping flips the sign |
| MissingEvidences.OptionalFlips | internal/model/canonicalize.go:155-166 | swapping the sides flips the sign exactly when both or neither is empty |
| MissingEvidences.BothBelowExactly | internal/model/canonicalize.go:116-166 | each of two requirements compares below the other exactly when the first field that differs is a string only one of them leaves empty; otherwise swapping flips the sign |
| MissingEvidences.CompareMissingIsWeakExactly | internal/model/canonicalize.go:116-130 | the comparison puts a list of requirements in a strict weak order exactly when no two of them differ in that way |
| MissingEvidences.CompareMissingIsTotal | internal/model/canonicalize.go:116-130 | on requirements the validator passes the comparison is a strict total order |
| MissingEvidences.MalformedCompareBothWays | internal/model/canonicalize.go:116-130 | a passed and a malformed requirement each below the other |
| CanonicalBranches.ForestMeansRooted | internal/model/canonicalize.go:285-315 | all parents resolve without a cycle exactly when every branch has a depth |
| CanonicalBranches.Canonicalize | internal/model/canonicalize.go:285-315 | keeps the branches; succeeds exactly when the branches have layers that all branches with one ID agree on, also with repeated IDs, and then orders distinct ones by depth and ID; on failure returns its input |
| CanonicalBranches.DistinctLayerable | internal/model/canonicalize.go:285-315 | with one branch per ID there are such layers exactly when every parent resolves and no cycle exists |
| CanonicalBranches.ParentsFirst | internal/model/canonicalize.go:293-313 | in the canonical order a branch comes after its parent |
| CanonicalBranches.CanonicalIsOrderIndependent | internal/model/canonicalize.go:285-315 | the result does not depend on the order the branches arrive in |
| CanonicalBranches.CanonicalIsIdempotent | internal/model/canonicalize.go:285-315 | ordering the ordered branches changes nothing |
| Canonical.RefsTotal | internal/model/canonicalize.go:248-284 | the reference order is a strict total order on references with one ID of their own known kind |
| Canonical.EvidenceIgnoresOrder | internal/model/canonicalize.go:5-63 | well-formed evidence runs that differ by the order of sets have one canonical form |
| Canonical.CanonicalEvidenceIsAlike | internal/model/canonicalize.go:5-63 | every collection is kept as a multiset, and the edge order of branches stays |
| Canonical.AlikeEvidenceStaysWell | internal/model/canonicalize.go:5-63 | reordering the sets of a well-formed evidence run leaves it well-formed |
| CanonicalRuns.BranchIndexFinds | internal/model/canonicalize.go:316-323 | the index is the first position of the branch, past the length when it is absent |
| CanonicalRuns.RunIgnoresOrder | internal/model/canonicalize.go:65-114 | well-formed runs that differ by the order of sets have one canonical form |
| CanonicalRuns.CanonicalRunIsAlike | internal/model/canonicalize.go:65-114 | claims, findings and their lists are kept as multisets; edge order and experiment order stay |
| CanonicalRuns.AlikeRunStaysWell | internal/model/canonicalize.go:65-114 | reordering the sets of a well-formed run leaves it well-formed |
| Canonicalizing.CanonicalizeEvidence | internal/model/canonicalize.go:5-63 | on any run the result differs by order alone, on a well-formed run it is the canonical form; one issue is raised exactly when the branches have no layers |
| Canonicalizing.CanonicalizeClaim | internal/model/canonicalize.go:77-92 | a claim's lists are sorted each in its own order, branches by their place in the canonical run |
| Canonicalizing.CanonicalizeFinding | internal/model/canonicalize.go:93-109 | a finding's branches and positions follow the branches, its claims their numbers; its experiments stay |
| Canonicalizing.CanonicalizeEvaluated | internal/model/canonicalize.go:65-114 | the same for evaluated runs; with distinct valid IDs claims and findings stand in number order |
| Canonicalizing.CanonicalizeEvidenceTwice | internal/model/canonicalize.go:5-63 | on a well-formed evidence run a second call changes nothing |
| Canonicalizing.CanonicalizeTwice | internal/model/canonicalize.go:65-114 | on a well-formed run a second call changes nothing |
| Canonicalizing.CanonicalizeReordered | internal/model/canonicalize.go:65-114 | two calls on well-formed runs that differ by the order of sets return the same run |
| Evaluating.CollectFromRule | internal/rules/evaluate.go:29-44 | of a rule's candidates the first with each valid key stays; each invalid key and each repetition raises one issue |
| Evaluating.CompileCandidate | internal/rules/evaluate.go:57-82 | one pass over the claim templates allocates numbers, registers keys and resolves references as defined step by step |
| Evaluating.CompileClaims | internal/rules/evaluate.go:56-82 | the numbering runs on through all candidates in order |
| Evaluating.CompileFindings | internal/rules/evaluate.go:83-97 | findings are numbered through all candidates and cite claims by the keys of their own candidate |
| Evaluating.CompileTemplates | internal/rules/evaluate.go:28-101 | the template phase returns its issues, and without any the compiled run |
| EvaluatorLaws.ClaimsAreLaidOut | internal/rules/evaluate.go:56-82 | without issues claim IDs are 1..n as the validator prints them, each claim copies its template, and its claim references name claims of its candidate no later than itself |
| EvaluatorLaws.FindingsAreLaidOut | internal/rules/evaluate.go:83-97 | without issues finding IDs are 1..n, each finding copies its template unselected and cites the claims under the template's keys |
| EvaluatorLaws.CandidateOf | internal/rules/evaluate.go:57-81 | every compiled claim belongs to a template of one candidate |
| EvaluatorLaws.ClaimsAlreadySorted | internal/model/canonicalize.go:75-75 | the numeric sort leaves the compiled claims as they are, past 999999 of them |
| EvaluatorLaws.FindingsAlreadySorted | internal/model/canonicalize.go:76-76 | and the findings |
| EvaluatorOrder.KeysAreSound | internal/rules/evaluate.go:32-43 | a rule raises no key issue exactly when its keys are valid and distinct |
| EvaluatorOrder.KeyIssuesPermuted | internal/rules/evaluate.go:32-43 | the issues of a rule are the same multiset in every order of its candidates |
| EvaluatorOrder.CandidatesTotal | internal/rules/evaluate.go:45-50 | rule and key put the candidates in a strict total order |
| EvaluatorOrder.CandidateOrderIsIrrelevant | internal/rules/evaluate.go:28-101 | permuting a rule's candidates changes neither the issues, as a multiset, nor the compiled run |
| EvaluatorRun.TemplatePhasePasses | internal/rules/evaluate.go:28-101 | the template phase passes exactly when rule keys are valid and distinct, local keys nonempty and distinct, and every reference and finding key resolves within its candidate, up to the citing claim |
| EvaluatorRun.SoundReferencesGoBack | internal/model/validate_evaluated.go:363-365 | where the reference checks pass, a compiled claim cites strictly earlier claims |
| EvaluatorRun.SelfReferenceIsRejected | internal/model/validate_evaluated.go:363-365 | a run with a claim that cites itself is rejected |
| EvaluatorRun.SelfReferencePassesTemplates | internal/rules/evaluate.go:66-72 | a candidate whose claim cites itself raises no template issue |
| EvaluatorRun.CanonicalizeAndCheck | internal/model/validate_evaluated.go:166-173 | a compiled and selected run that passes canonicalization and the checks of references and selections keeps claims and findings in their order, numbered from 1, the claims citing only earlier ones of their candidate |
| EvaluatorRun.Evaluate | internal/rules/evaluate.go:22-107 | returns the template issues if there are any; an accepted run is such a run, its findings the compiled ones with the selection that the set of findings gives each, confirmed blockers alone selected and the selection valid |
| ListenerAbsence.CoherentExactly | internal/model/listener_absence.go:264-273 | for a 64-bit window: the times differ by at most the window, or the difference leaves the 64-bit range in one of two ways |
| ListenerAbsence.FarPastIsCoherent | internal/model/listener_absence.go:264-273 | times three centuries apart that are coherent within a nanosecond |
| ListenerAbsence.NamespaceMatchesVantage | internal/model/listener_absence.go:285-303 | true exactly when the first namespace entity with the ID and the first vantage point with the ID, a host namespace, have one inode |
| ListenerAbsence.ConcreteListenerKey | internal/model/listener_absence.go:275-283 | finds the ID exactly when a listener entity with a listener identity carries it |
| ListenerAbsence.CheckOwnership | internal/model/listener_absence.go:72-105 | passes exactly when ports agree, every listed listener is concrete, every owner is resolved, the owned listeners are the listed ones, and their number is the reported count |
| ListenerAbsence.ListenerVisibilityComplete | internal/model/listener_absence.go:10-107 | decides the completeness contract: scope and namespace, distinct admissible basis, agreeing results, ownership |
| ListenerAbsence.BasisIssueCode | internal/model/listener_absence.go:113-149 | the first result of this vantage point that falls short gives the code; without one there is none, a vantage code when all results are of others, and insufficient visibility when there is no result |
| ListenerAbsence.AllResultsZero | internal/model/listener_absence.go:163-177 | on a complete assessment no nonzero result is met exactly when the count is zero |
| ListenerAbsence.ListenerAbsenceEvidenceValid | internal/model/listener_absence.go:155-202 | decides absence: complete, on a port in scope, counting zero, contradicted by no coherent observation of the vantage point |
| ListenerAbsence.ListenerAbsenceIssueCode | internal/model/listener_absence.go:208-241 | no code exactly when the absence is valid; otherwise one of three codes |
| Procfs.ReverseWord | internal/localdiagnosis/procfs.go:210-212 | two cursors reverse one four-byte word in place and touch nothing else |
| Procfs.ReverseWords | internal/localdiagnosis/procfs.go:209-213 | every four-byte group of the buffer is reversed in place |
| Procfs.WordsReversedTwice | internal/localdiagnosis/procfs.go:209-213 | reversing twice gives the bytes back |
| Procfs.DecodeProcAddress | internal/localdiagnosis/procfs.go:193-220 | decodes exactly the texts of the family's length in hexadecimal, upper or lower case |
| Procfs.DecodeInvertsProcText | internal/localdiagnosis/procfs.go:193-220 | decoding inverts the way procfs prints an address |
| Procfs.ProcTextInjective | internal/localdiagnosis/procfs.go:193-220 | no two addresses of a family print alike |
| Procfs.PrintedRowIsRead | internal/localdiagnosis/procfs.go:83-117 | reading undoes printing: the line the kernel prints for a listening socket on the port comes back as its listener, with address, owner, inode and binding; other states and ports are passed over, port 0 and inode 0 are malformed |
| Procfs.PrintedRowListens | internal/localdiagnosis/procfs.go:95-117 | of the lines the kernel prints, those that count as listening in a bucket are exactly those of sockets that listen there |
| Procfs.ParseTable | internal/localdiagnosis/procfs.go:76-122 | yields a listener per LISTEN row on the port, sorted, and is complete exactly when no row is malformed |
| Procfs.FoundInExact | internal/localdiagnosis/procfs.go:83-118 | a listener is found exactly when some row reads as it |
| Procfs.EmptyBucketMeansNoRow | internal/localdiagnosis/procfs.go:76-122 | in a complete table no listener with a binding is found exactly when no row listens there |
| ProcAttribution.ScanProcess | internal/localdiagnosis/procfs.go:339-366 | a process becomes the owner of wanted sockets it links that had none, of all of them if it could be read in full, and changes no other owner |
| ProcAttribution.Attribute | internal/localdiagnosis/procfs.go:310-369 | every owner has a readable link to the wanted socket; the result is complete exactly when nothing was cut off or unreadable, and then every wanted linked socket is owned by the first linking process in name order |
| ProcAttribution.CompleteOwnersAgree | internal/localdiagnosis/procfs.go:310-369 | complete attributions of one snapshot have the same owners |
| LocalDiagnosis.CollectInventory | internal/localdiagnosis/procfs.go:282-308 | the inventory holds the listeners of both tables, names the families read in full, and knows the namespace exactly when its inode is not zero |
| LocalDiagnosis.CountListeners | internal/localdiagnosis/diagnose.go:246-254 | counts the listeners of a bucket |
| LocalDiagnosis.ResultIdsDiffer | internal/localdiagnosis/diagnose.go:78-81 | however far the counter has run, no two results it numbers share an ID, whatever their family and binding |
| LocalDiagnosis.RegisterListeners | internal/localdiagnosis/diagnose.go:136-157 | one entity per listener, numbered in order, and one per owning process at its first appearance |
| LocalDiagnosis.ObserveListeners | internal/localdiagnosis/diagnose.go:172-191 | an entry and an ownership observation per listener, numbered in order |
| LocalDiagnosis.AddBucket | internal/localdiagnosis/diagnose.go:195-220 | a complete bucket gets a result that its assessment is based on, another a limitation; the counters follow the records |
| LocalDiagnosis.AddLocalEvidence | internal/localdiagnosis/diagnose.go:99-222 | the run afterwards is the run before with exactly the local records appended |
| LocalAbsence.EmittedCountsSumToRows | internal/localdiagnosis/diagnose.go:193-201 | with a known namespace and both tables read in full six results are emitted, and their counts sum to the number of rows listening on the port |
| LocalAbsence.ResultIsLookedUp | internal/model/listener_absence.go:256-262 | each bucket's result is what its ID finds among all observations, whatever came before |
| LocalAbsence.AbsenceExactly | internal/localdiagnosis/diagnose.go:99-222 | absence is valid for a bucket exactly when the port is the inventoried one, namespace and family table are complete, and no listener is in the bucket |
| LocalAbsence.AbsenceMeansNoListeningRow | internal/localdiagnosis/diagnose.go:99-222 | and for an inventory of the tables exactly when the namespace is known, the table has no malformed row, and none of its rows listens there |
| ListenerRule.TargetDestinations | internal/rules/listener/no_matching_listener.go:96-120 | the destinations of a family are exactly the addresses the evidence or the hostname names, each once |
| ListenerRule.ScopeAppliesToTarget | internal/rules/listener/no_matching_listener.go:79-94 | a family applies exactly when it has a destination, or nothing names any destination |
| ListenerRule.HasCompatibleListener | internal/rules/listener/no_matching_listener.go:45-77 | true exactly when an observed listener of the namespace on the scope's port covers some destination |
| ListenerRule.BranchesFor | internal/rules/listener/no_matching_listener.go:142-161 | branches and positions run in parallel, one pair per citation |
| ListenerRule.PositionsExact | internal/rules/listener/no_matching_listener.go:142-161 | a position is listed exactly when the edge there, on a branch of the run, cites the assessment |
| ListenerRule.EvaluateRule | internal/rules/listener/no_matching_listener.go:16-39 | one candidate for each assessment the rule concludes from, in order |
| ListenerRule.ConclusionsExact | internal/rules/listener/no_matching_listener.go:16-39 | the candidates are exactly those of assessments with valid absence that, locally, apply to the target and face no compatible listener |
| ListenerRule.ConclusionsPassTemplates | internal/rules/listener/no_matching_listener.go:33-36 | every candidate of the rule passes the evaluator's template checks |
| ListenerFindings.FindingPassesExactly | internal/rules/listener/no_matching_listener.go:142-161 | the reference checks pass the rule's finding exactly when no branch cites the assessment at two places |
| ListenerFindings.FindingAttachesNowhere | internal/model/validate_evidence.go:534-558 | on edges the evidence validator passes the rule's finding lists no branch and no position |
| ListenerFindings.NoListenerIsNeverSelected | internal/selection/selection.go:35-120 | so no call selects the conclusion that nothing listens, whatever the other findings are |
| AlikeAbsence.AbsenceIgnoresOrder | internal/model/listener_absence.go:155-202 | with one record per ID, absence is valid in a run exactly when it is in every reordering of the run |
| AlikeAbsence.ConclusionIgnoresOrder | internal/rules/listener/no_matching_listener.go:16-39 | and the rule concludes from an assessment exactly when it does in every reordering |
| LocalUnique.LocalEvidenceIsUnique | internal/localdiagnosis/diagnose.go:99-222 | a run with one record per ID and none of the local IDs still has one record per ID when the local evidence is added |
| LocalConclusion.ConcludesExactly | internal/localdiagnosis/diagnose.go:44-52 | on the locally diagnosed run, in whatever order canonicalization puts it, the rule concludes from a bucket exactly when it was read in full, is empty, its family applies, and no listener seen would take the connections |
| LocalConclusion.ConcludeLocally | internal/localdiagnosis/diagnose.go:44-56 | adding the local evidence, canonicalizing it and applying the rule yields a candidate for a bucket exactly in that case |
| LocalConclusion.ConclusionIsTrueOfTheTables | internal/localdiagnosis/diagnose.go:32-58 | whenever it concludes from the canonical run, the family's table was read and no row of it listens there |
| Pointers.UnescapeEscape | internal/schema/v1/decode.go:217-219 | reading by RFC 6901, section 4 undoes the escaping |
| Pointers.PointerInjective | internal/schema/v1/decode.go:133-133 | distinct token paths have distinct pointers |
| Pointers.NormalizePointer | internal/schema/v1/decode.go:220-228 | the split parts are rewritten in place: every part that reads as an integer becomes a star |
| Pointers.NormalizeChild | internal/schema/v1/decode.go:220-228 | a child's normal pointer is the parent's and one part more, a member with a numeric name counting as an index |
| WireScan.ScanHead | internal/schema/v1/decode.go:117-160 | duplicates in document order, then the union error or else the missing members |
| WireScan.ScanObject | internal/schema/v1/decode.go:107-185 | the issues of an object are its own, then per member the unknown-member, enum and nested ones, a repeated name bringing up its last value again |
| WireScan.ScanNested | internal/schema/v1/decode.go:195-216 | arrays are scanned item by item under their index, other values report nothing |
| WireScan.ScanWithMode | internal/schema/v1/decode.go:96-106 | a document that is no object is one invalid-JSON issue |
| WireLaws.ObjectPasses | internal/schema/v1/decode.go:117-183 | an object reports nothing exactly when it is closed itself and its members' values report nothing |
| WireLaws.ScanPassesClosed | internal/schema/v1/decode.go:107-216 | a value reports nothing exactly when every object at every path below it has distinct, allowed and required members, a known kind and known enum values |
| WireLaws.ScanDocument | internal/schema/v1/decode.go:93-106 | a document passes exactly when it is an object closed at every depth, in either mode |
| WireLaws.ModesDifferInCode | internal/schema/v1/decode.go:163-169 | both modes report the same issues in the same order, only the code of an unknown member differs |
| TcpStrategies.PlanStrategies | internal/clientprobe/transport.go:38-49 | one normal attempt and the first pinned plan of each family; the cap of three cuts nothing off |
| TcpStrategies.InvariantAlways | internal/clientprobe/transport.go:50-82 | under every interleaving each fact is unsent, in the channel or received, in one of these places once |
| TcpStrategies.SendNeverBlocks | internal/clientprobe/transport.go:50-78 | a goroutine that has a fact finds room in the channel |
| TcpStrategies.SomeStepIsPossible | internal/clientprobe/transport.go:50-82 | until the caller has its facts some step is possible |
| TcpStrategies.RunsAreShort | internal/clientprobe/transport.go:50-82 | every step is a launch, a send or a receive not made before, so a run of n strategies ends within 3n steps |
| TcpStrategies.OneFactPerStrategy | internal/clientprobe/transport.go:79-82 | the caller receives exactly one fact per strategy and leaves none |
| TcpStrategies.ReceiveInOrder | internal/clientprobe/transport.go:79-82 | every order of the facts can arrive |
| TcpStrategies.SortKeepsTies | internal/clientprobe/transport.go:83-94 | facts with one endpoint and mode come out in the order they arrived |
| TcpStrategies.DeterministicExactly | internal/clientprobe/transport.go:79-95 | the returned facts are the same for every interleaving exactly when no two different facts share endpoint and mode |
| Probe.RetainAddresses | internal/clientprobe/probe.go:107-135 | keeps the eight least distinct addresses of each family after unmapping, and says whether any was cut |
| Probe.RetainedIgnoresOrder | internal/clientprobe/probe.go:107-135 | order, repetition and IPv4-in-IPv6 form of the answers do not matter |
| Probe.RetainedAreLeast | internal/clientprobe/probe.go:125-134 | every kept address is below every dropped one |
| Probe.PlanEndpoints | internal/clientprobe/probe.go:137-147 | IPv4 before IPv6, ascending, the least address of each family pinned, sixteen plans at most |
| Probe.MergeEndpointPlans | internal/clientprobe/probe.go:175-193 | the planned endpoints as planned and every exactly attempted one, each once and in endpoint order |

## Left out

- Sockets, TLS, HTTP, certificates, DNS, contexts and timeouts: foreign calls without visible semantics. The outcome of an attempt is a parameter of the step system.
- URL parsing and the address a hostname spells: a parameter of the listener rule.
- Reading procfs: files, directories and links are one fixed snapshot, a table arrives as the fields of its lines, and process labels are not modelled.
- Report assembly in `internal/clientprobe/assemble.go`, the wire structs and the JSON lexer: record building and encoding/json.
- The field-by-field checks of the validators (enum values, payload shapes, display labels, reason codes): single-branch facts.
- The literal tables of `internal/schema/v1/wire_shape.go`: a parameter of the scan.
- The schema version check that precedes evaluation, and SortValidationIssues: issue lists are in the order they are raised.
- The connection and TLS rules, which read evidence only the left-out collectors build.
- Canonicalizing.CanonicalizeEvaluated: on runs that are not well-formed the order of equal elements is whatever sort.Slice leaves, so the result is known up to order alone.
- SelectionApply.Apply: when two findings tie in rule and number the choice between them is left to sort.Slice; the guarantees of the rounds and of the promotion still hold. The laws of two calls (ApplyReordered, ApplyById, ApplyTwice) therefore ask for findings without such ties, which the evaluator's numbering guarantees.
- Justification.ClaimPathReachesBase: where a reachable claim has a dangling or self-citing reference a false answer says nothing, because the search gives up at the first such reference it meets.
- EvaluatorRun.Evaluate: of the final validation the checks of references and selections are modelled; the field-by-field checks can reject further runs.
- Unbounded counters: the overflow of Go's int in claim, finding and local numbering is not modelled.
