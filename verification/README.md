# Verification model of the identity manager

A Dafny 4.11 model of the decision logic of the directory service under `apps/api/src`, with proofs of the
properties that span its parts. `dafny verify dfyconfig.toml` checks the whole project.

## What is modelled

* **Business roles.** The three-valued formula evaluator (`Evaluator`), the reconciler that writes the
  difference between justified and present rows (`Reconciler`), the sweep over the directory (`RoleSweep`), the
  simulation of a draft (`Simulation`), the standing report on segregation of duties (`SodChecker`), the draft's
  parser and hash (`DraftHash`, `Ordering`), the gate in front of the live formula (`PublishGate`) and the role
  miner (`Miner`, `MinerSearch`).
* **Self-editable attributes against published formulas.** Publish, create-definition and update-definition
  transactions under READ COMMITTED, statement by statement, with row locks and per-key advisory locks
  (`KeyLockProtocol`), and their freedom from deadlock (`KeyLockDeadlock`).
* **Attribute conversion and migration.** The decimal normal form (`Decimal`), calendar arithmetic of ECMA-262
  section 21.4.1 (`Calendar`), strict conversion (`Conversion`), the walk over
  changing tables (`MigrationWalk`), the preview and its digest (`Migration`), the commit with compare-and-set
  updates and undo (`MigrationCommit`) and what it leaves behind (`MigrationLeftovers`).
* **Scoped delegation.** The permission catalog, the guards, and runs of assign and revoke requests
  (`Delegation`), and what they add at each moment (`DelegationMoments`).
* **Active Directory.** The dry-run plan and the interruptible apply for users (`AdUser`, `AccountControl`) and
  groups (`AdGroup`), DN building and escaping (`Dn`), the org-unit cache (`OrgUnitCache`) and the whole apply
  of a user with the org units above it (`AdApply`).

Each machine and each specification function has lemmas that say what it means without its own definition; where
there are many they have a module of their own, named after it (`EvaluatorMeaning`, `ReconcilerMeaning`,
`SimulationMeaning`, `PublishGateMeaning`, `DraftHashMeaning`, `KeyLockOutcomes`, `ConversionMeaning`,
`DecimalMeaning`, `MigrationMeaning`, `AdUserMeaning`, `DnMeaning`, `MinerMeaning`, `RoleSweepMeaning`,
`DelegationCatalog`).

Code that changes state is a class or a method with loops whose contract ties it to a specification function;
the properties are proved of those functions. Concurrency is a machine over statements: a step sees what others
have committed, and locks follow from how far a transaction has got.

## Where the code does not do what is documented

The model follows the code, and each case has its exact condition.

* The self-editable invariant fails, because `create` takes the key lock only for `selfEditable: true`
  (`KeyLockProtocol.UnlockedCreateBreaksSafety`, `KeyLockProtocol.SafeIffCreateAlwaysLocks`).
* Publishes can deadlock: locks are taken in the order of the keys, but a lock id is a 32-bit hash of its key. It
  happens exactly when, in the sort order, a key with another id stands between two keys with one id
  (`KeyLockDeadlock.DeadlockFreeIffContiguous`, `KeyLockDeadlock.CollisionDeadlocks`).
* A role grant is checked against what its caller held when the request arrived. If the covering grant is revoked
  before the write, the write creates authority that nobody has at that moment
  (`DelegationMoments.RevokedCoverGrantsAnew`, `DelegationMoments.UnionNeverGrowsIff`); what nobody had when the
  run began is still out of reach (`Delegation.DelegationCreatesNoAuthority`).
* A migration can succeed and leave a value of the old type, stored behind its walk
  (`MigrationLeftovers.AddedBehindTheWalkStaysOld`, `MigrationLeftovers.NothingOldIsLeftIff`).
* `in_org_subtree` compares the field's value, not its name, with the org-unit id
  (`Evaluator.SubtreeAnswersIffValueIsOrgUnit`).
* The publish gate trusts the recorded violation count (`PublishGate.LaterConflictSlipsThrough`,
  `PublishGate.CleanAfterPublishIffResimulationIsClean`).
* The migration hash does not cover `sensitive` (`Migration.HashIgnoresSensitive`,
  `Migration.SensitiveRefusesIffNotReversible`).
* The decimal normal form merges values whose exponents round to one double
  (`Decimal.WrongExactlyWhenExponentsMerge`); conversion itself is not affected
  (`Conversion.ConversionNeverMergesValues`).
* Conversion and validation disagree on real dates before the year 100 and on text with a time
  (`Conversion.ChecksAgreeIffNotEarly`, `Conversion.FirstDayIsDisputed`, `Conversion.ConvertedDateValidatesIff`,
  `Conversion.MidnightIsNotValidated`).
* An org-unit move leaves cached descendants, and cached spellings that differ in case, behind
  (`OrgUnitCache.MoveKeepsCacheIff`).
* A group's account name that alone differs from its DN is never repaired (`AdGroup.NameReachedIff`,
  `AdGroup.MisnamedStaysMisnamed`).
* A managed `userAccountControl` mapping keeps the plan non-empty for ever unless its bit is right
  (`AdUser.MappedUacSettlesIff`, `AdUser.MappedUacNeverSettles`).

## Parameters and assumptions

* SHA-256 is injective; `JSON.stringify` is injective and its text has no raw control character; user ids have
  neither NUL nor newline.
* `Number`, `String(n)`, `Date.parse` and the parsing of a date at UTC midnight are parameters. Rounding settles
  at once, integers up to 2^53 are exact, distinct doubles render distinctly; a date that exists parses to its own
  day, one that does not is refused or rolled over. A text has fewer than 2^53 characters.
* A JSON number is a finite double, known by its place in ascending order: NaN and negative zero, which `jsonb`
  does not store, do not occur. Scores of the miner are exact rationals.
* The orders of the JavaScript sort and of the database collation are ranks that tell distinct keys apart. The
  advisory lock id of a key is a parameter; collisions are allowed.
* The database delivers unique role, user and assignment ids, conflicts between two different roles of the
  conflict's organization, and an unchanging org tree while role assignments are made.
* The directory accepts writes that its own rules allow, and LDAP attribute names are compared as written.
* Case folding works character by character and leaves the characters of the DN grammar alone. The base DN
  parses.
* `Assumptions` exhibits functions that meet what is assumed of JSON text, digests, numbers, dates, lock ids and
  case folding, so that no theorem holds only because its assumptions cannot be met.
* The blast-radius rule, the texts of refusals and the rule that ties stored validation rules to a data type are
  parameters.

## Model

| member | source | states |
|---|---|---|
| `KeyLockProtocol.SafeIffCreateAlwaysLocks` | apps/api/src/attributes/attribute-definitions.repository.ts:273-288 | over all interleavings of publishes, creates and updates from a quiet safe state, "no committed formula reads a committed self-editable attribute" holds exactly when create always takes the key lock |
| `KeyLockProtocol.LockingCreatesAreSafe` | apps/api/src/business-roles/business-roles.repository.ts:255-366 | with every user-scoped create holding the advisory lock of its key, every reachable committed state is safe |
| `KeyLockProtocol.UnlockedCreateBreaksSafety` | apps/api/src/attributes/attribute-definitions.repository.ts:253-309 | as written the invariant fails: for any role and any key without a definition, publish scans, create(false) and update(true) commit, publish commits |
| `KeyLockProtocol.StepKeepsInv` | apps/api/src/business-roles/business-roles.repository.ts:368-415 | every statement of every transaction keeps what each open transaction relies on about the committed rows |
| `KeyLockProtocol.PublishCommitKeepsOthers` | apps/api/src/business-roles/business-roles.repository.ts:231-254 | a committing publish invalidates nothing another open transaction has checked |
| `KeyLockProtocol.CreateCommitKeepsOthers` | apps/api/src/attributes/attribute-definitions.repository.ts:290-309 | a committing create invalidates nothing another open transaction has checked, given the key lock |
| `KeyLockProtocol.UpdateCommitKeepsOthers` | apps/api/src/attributes/attribute-definitions.repository.ts:320-399 | a committing update invalidates nothing another open transaction has checked, given the row lock |
| `KeyLockProtocol.FreeLocksKeepExclusive` | apps/api/src/attributes/attribute-key.ts:143-145 | taking only free advisory and row locks, no two transactions ever hold the same one |
| `KeyLockProtocol.RaceCommits` | apps/api/src/attributes/attribute-definitions.repository.ts:437-466 | the last two statements of the race commit a formula reading the attribute the update made self-editable |
| `KeyLockOutcomes.UndisturbedPublish` | apps/api/src/business-roles/business-roles.repository.ts:199-255 | from any state a publish with free locks, left alone, commits with its draft's keys as the live formula exactly when no committed user-scoped definition of one of them is self-editable; otherwise it aborts; nothing else changes |
| `KeyLockOutcomes.UndisturbedCreate` | apps/api/src/attributes/attribute-definitions.repository.ts:253-309 | from any state a create with free locks, left alone, commits exactly when the definition is new and, if it is to be self-editable, no live formula reads it |
| `KeyLockOutcomes.UndisturbedUpdate` | apps/api/src/attributes/attribute-definitions.repository.ts:320-399 | from any state an update with a free row, left alone, commits exactly when the definition exists and, if it is to become self-editable, no live formula reads it |
| `KeyLockOutcomes.NothingIsInsertedTwice` | apps/api/src/attributes/attribute-definitions.repository.ts:290-309 | over every run an open insert is of a definition that does not exist, and is the only one of it |
| `KeyLockDeadlock.DeadlockFreeIffContiguous` | apps/api/src/business-roles/business-roles.repository.ts:305-327 | over all interleavings of transactions that name keys of a set, no transactions ever wait in a circle exactly when the keys of each lock id stand next to each other in the order the locks are taken |
| `KeyLockDeadlock.NeverDeadlocked` | apps/api/src/business-roles/business-roles.repository.ts:305-326 | over such keys no reachable state has a circle of waiting, for the code as written as well as the locking variant |
| `KeyLockDeadlock.CollisionDeadlocks` | apps/api/src/business-roles/business-roles.repository.ts:323-327 | three keys, the outer two with one 32-bit id and the middle one with another: two publishes reach a state where each holds what the other needs |
| `KeyLockDeadlock.WaitsForLater` | apps/api/src/business-roles/business-roles.repository.ts:305-326 | whoever is waited for and waits in turn stands later in the order role row, advisory locks by sorted key, definition rows by key |
| `KeyLockDeadlock.StepKeepsExclusive` | apps/api/src/attributes/attribute-key.ts:143-145 | every statement of every transaction keeps locks exclusive, whatever the requests are |
| `KeyLockDeadlock.SomebodyMoves` | apps/api/src/business-roles/business-roles.repository.ts:305-326 | without a circle of waiting some unfinished transaction can take its next step |
| `Evaluator.MatchesConditions` | apps/api/src/business-roles/role-evaluator.ts:222-248 | the loop that does not stop at the first mismatch computes the three-valued conjunction |
| `Evaluator.EvaluateMeaning` | apps/api/src/business-roles/role-evaluator.ts:222-248 | a formula answers exactly when each of its conditions does, in any order, and matches exactly when it has a condition and all of them match |
| `EvaluatorMeaning.FieldMeaning` | apps/api/src/business-roles/role-evaluator.ts:138-152 | the value under a field: one of four columns, null when empty, or the attribute named after the prefix, null when absent; and no other field |
| `EvaluatorMeaning.EqualsMeaning` | apps/api/src/business-roles/role-evaluator.ts:160-183 | `equals` answers for every field there is and says yes exactly when the user's value is that scalar |
| `EvaluatorMeaning.NotEqualsMeaning` | apps/api/src/business-roles/role-evaluator.ts:184-184 | `not_equals` answers exactly when `equals` does, with the opposite verdict |
| `EvaluatorMeaning.InMeaning` | apps/api/src/business-roles/role-evaluator.ts:185-194 | `in` answers exactly for lists, and says yes exactly when `equals` would for some item |
| `EvaluatorMeaning.SubtreeMeaning` | apps/api/src/business-roles/role-evaluator.ts:195-208 | `in_org_subtree` answers exactly for a non-empty text on a field whose value is the org-unit id, and says yes exactly when its labels begin those of the user's path |
| `EvaluatorMeaning.UnknownMeaning` | apps/api/src/business-roles/role-evaluator.ts:232-245 | which reason an unanswered condition is given: operator, then field, then operand |
| `Evaluator.SubtreeIsLabelPrefix` | apps/api/src/business-roles/role-evaluator.ts:178-180 | the textual subtree test is ancestry on path labels, for every pair of paths |
| `Evaluator.SubtreeAnswersIffValueIsOrgUnit` | apps/api/src/business-roles/role-evaluator.ts:195-208 | helper, read off one definition: the subtree operator answers exactly when the VALUE of the field is the org-unit id, whichever field it is |
| `Evaluator.SubtreeAnswersForOtherField` | apps/api/src/business-roles/role-evaluator.ts:195-208 | so a custom attribute holding the id is answered, although the operator is documented for `orgUnitId` only |
| `Evaluator.ExplainRoleHold` | apps/api/src/business-roles/role-evaluator.ts:307-321 | the exception loop gives exclusion over inclusion over the formula, live exceptions only |
| `EvaluatorMeaning.HoldMeaning` | apps/api/src/business-roles/role-evaluator.ts:307-321 | a counting exclusion, then a counting inclusion, then the formula; an exception counts at its expiry and not after |
| `EvaluatorMeaning.PassedIsAbsent` | apps/api/src/business-roles/role-evaluator.ts:277-284 | an exception that has passed, or names somebody else, gives the verdict of its absence |
| `Evaluator.EvaluateRoles` | apps/api/src/business-roles/role-evaluator.ts:347-376 | the loop over roles computes the union of the held roles' grants, or the first refusal and nothing else |
| `Evaluator.EvaluableIffAllKnown` | apps/api/src/business-roles/role-evaluator.ts:347-376 | one role that cannot be evaluated refuses the whole evaluation, and only that does |
| `EvaluatorMeaning.EntitlementMeaning` | apps/api/src/business-roles/role-evaluator.ts:347-376 | an evaluation entitles to exactly the groups and accounts some held role grants |
| `EvaluatorMeaning.RefusalMeaning` | apps/api/src/business-roles/role-evaluator.ts:347-376 | a refusal names the first role that cannot be answered, with its reason |
| `Reconciler.Store.ReconcileUser` | apps/api/src/business-roles/role-reconciler.ts:155-381 | one pass over one person: outcome, new rows, events and audit row are those of the specified pass; everybody else's rows stay |
| `Reconciler.Store.ExplainUser` | apps/api/src/business-roles/role-reconciler.ts:419-463 | the read-only explanation: missing user, refusal, or the justifying roles of each entitlement |
| `Reconciler.PassMeetsDesire` | apps/api/src/business-roles/role-reconciler.ts:191-209 | undisturbed, a pass leaves exactly manual rows plus desired rows, and no surviving row is rewritten |
| `Reconciler.SecondPassWritesNothing` | apps/api/src/business-roles/role-reconciler.ts:211-218 | after a pass the difference to the same desire is empty |
| `Reconciler.PassIsIdempotent` | apps/api/src/business-roles/role-reconciler.ts:155-381 | of two passes in a row the second writes nothing and leaves the rows as they are |
| `ReconcilerMeaning.TwoPassesSettle` | apps/api/src/business-roles/role-reconciler.ts:155-381 | after a pass with one desire and a pass with another, the derived rows are those of the second without a manual row, and the manual rows those of the start, in both tables |
| `ReconcilerMeaning.AddedRows` | apps/api/src/business-roles/role-reconciler.ts:241-277 | every row added is derived, was desired, and carries the actor, the time and its group's organization |
| `ReconcilerMeaning.PassGivesWhatRolesGrant` | apps/api/src/business-roles/role-reconciler.ts:155-209 | from formulas to rows: the derived rows are exactly what the held enabled roles of the person's organization grant, apart from those there by hand |
| `ReconcilerMeaning.OutcomeNamesChanges` | apps/api/src/business-roles/role-reconciler.ts:211-223 | the outcome names exactly the rows that appeared and the rows that went |
| `ReconcilerMeaning.EventMeaning` | apps/api/src/business-roles/role-reconciler.ts:325-372 | one event per removed account and per group joined or left, and no other |
| `Reconciler.ManualRowsSurvive` | apps/api/src/business-roles/role-reconciler.ts:253-288 | whatever is inserted and deleted and whenever hand edits land in between, a hand-granted row stays as it is until removed by hand |
| `Reconciler.RemovedRowsWereDerived` | apps/api/src/business-roles/role-reconciler.ts:256-288 | helper, read off one definition: a row the reconciler removes was a business-role row at the moment of the delete; the rest are untouched |
| `Reconciler.AccountEventsAreRemovals` | apps/api/src/business-roles/role-reconciler.ts:325-333 | helper, read off one definition: one revoke event per removed account and none for an added one |
| `Reconciler.MembershipEventsAreChanges` | apps/api/src/business-roles/role-reconciler.ts:365-372 | helper, read off one definition: one membership event per group added or removed |
| `Reconciler.GroupsJustifiedExactly` | apps/api/src/business-roles/role-reconciler.ts:437-449 | a group is justified exactly when desired, by exactly the held roles that grant it |
| `Reconciler.TargetsJustifiedExactly` | apps/api/src/business-roles/role-reconciler.ts:437-449 | the same for accounts |
| `Reconciler.Justify` | apps/api/src/business-roles/role-reconciler.ts:433-449 | looking roles up by held id attributes each entitlement as specified |
| `Reconciler.HeldById` | apps/api/src/business-roles/role-reconciler.ts:433-438 | with distinct role ids, an id among the held ids is the id of a held role and of no other |
| `RoleSweep.Sweep` | apps/api/src/business-roles/role-reconciliation.job.ts:204-295 | every user of the directory has exactly one pass of their own over the rows they started with, across statuses and pages |
| `RoleSweep.Visit` | apps/api/src/business-roles/role-reconciliation.job.ts:225-273 | one user's refusal or absence is noted and changes nobody else's rows |
| `RoleSweep.ReportNamesEveryRefusal` | apps/api/src/business-roles/role-reconciliation.job.ts:249-263 | the report names exactly the refused and the skipped users of the sweep |
| `RoleSweepMeaning.CountMeaning` | apps/api/src/business-roles/role-reconciliation.job.ts:249-273 | everybody visited is counted, and as changed exactly those whose pass added or removed something |
| `SodChecker.ListStandingViolations` | apps/api/src/business-roles/sod-checker.ts:101-200 | the nested walk counts all violations, keeps the first five hundred, names the roles it could not evaluate; a missing role is an error |
| `SodChecker.StandingMeaning` | apps/api/src/business-roles/sod-checker.ts:159-191 | the violations are exactly the pairs of an enabled conflict and a person of its organization who holds both roles |
| `SimulationMeaning.StandingViolationMeaning` | apps/api/src/business-roles/sod-checker.ts:159-191 | a violation is a conflict, a person of its organization who holds both roles, and how they hold each |
| `SimulationMeaning.UnclearMeaning` | apps/api/src/business-roles/sod-checker.ts:156-169 | a role is listed as not evaluable exactly when it stopped a check, with its reason |
| `SodChecker.StandingTallyAll` | apps/api/src/business-roles/sod-checker.ts:142-200 | the walk meets exactly those violations, in order, and exactly the roles that stopped some check |
| `SodChecker.GroupByOrganization` | apps/api/src/business-roles/sod-checker.ts:136-144 | conflicts are grouped by organization in the order met |
| `Simulation.RunSimulation` | apps/api/src/business-roles/business-roles.controller.ts:1424-1556 | the simulation report counts every gain, loss and violation of the role's population, samples the first five hundred, and refuses at the first person who cannot be evaluated |
| `Simulation.LoadCounterparts` | apps/api/src/business-roles/business-roles.controller.ts:1458-1478 | the other roles of this role's own conflicts in order, or the first of them that is missing |
| `Simulation.FoundExactly` | apps/api/src/business-roles/business-roles.controller.ts:1513-1530 | every gain and loss found is a person's own, nobody's is missed, everybody is scanned |
| `SimulationMeaning.ChangeMeaning` | apps/api/src/business-roles/business-roles.controller.ts:1405-1418 | a group or account is gained exactly when the draft gives it and the published role does not, and lost the other way round |
| `SimulationMeaning.FoundMeaning` | apps/api/src/business-roles/business-roles.controller.ts:1501-1522 | an entry for exactly the people for whom something changes, groups or accounts only included, with all that changes |
| `SimulationMeaning.SodMeaning` | apps/api/src/business-roles/business-roles.controller.ts:1524-1545 | a violation for exactly the people who would hold the draft and hold a counterpart, with how they hold each |
| `SimulationMeaning.CounterpartMeaning` | apps/api/src/business-roles/business-roles.controller.ts:1458-1478 | the counterparts are the other roles of the conflicts that name this one on either side |
| `SimulationMeaning.RefusalMeaning` | apps/api/src/business-roles/business-roles.controller.ts:1424-1556 | the simulation is refused exactly when an answer it needs is missing for somebody, and names a role that could not be answered |
| `SimulationMeaning.ReportMeaning` | apps/api/src/business-roles/business-roles.controller.ts:1424-1556 | everything is counted, the first five hundred of each kind are shown, and a cut is flagged |
| `Simulation.EvaluateOne` | apps/api/src/business-roles/business-roles.controller.ts:1586-1599 | the evaluator over one role gives that role's own grants or the refusal |
| `Simulation.NoteCounterparts` | apps/api/src/business-roles/business-roles.controller.ts:1532-1545 | held counterparts are counted in order; one that cannot be evaluated refuses the simulation |
| `Simulation.SimulationBoundsReconciliation` | apps/api/src/business-roles/business-roles.controller.ts:1405-1418 | with settled rows and one role replaced by its draft, the next pass adds exactly the simulated gains without a row and removes only simulated losses, and is not refused |
| `Simulation.SimulationBoundsDiff` | apps/api/src/business-roles/role-reconciler.ts:191-209 | which of the simulated gains and losses move a row: gains nobody holds yet, and losses held by a derived row no other role wants |
| `Simulation.SimulationAgreesWithStandingReport` | apps/api/src/business-roles/business-roles.controller.ts:1447-1549 | violations simulated for a draft are, one by one, the standing violations on the role's conflicts once it is published; all other violations stay |
| `DraftHash.HashAlikeIffPermuted` | apps/api/src/business-roles/draft.ts:137-144 | two definitions hash the same exactly when their conditions and grants are permutations of each other |
| `DraftHash.PermutedMeansTheSame` | apps/api/src/business-roles/draft.ts:130-144 | and then they give every user, exception list and time the same verdict, route and grants |
| `DraftHash.ReasonFollowsTheOrder` | apps/api/src/business-roles/role-evaluator.ts:232-245 | only the reason for an unknown may differ: it names the first condition that cannot be answered |
| `DraftHash.StoredReadsBack` | apps/api/src/business-roles/draft.ts:67-128 | a stored definition parses back to itself exactly when it is valid, and is refused otherwise |
| `DraftHash.AcceptedDraftReparses` | apps/api/src/business-roles/draft.ts:67-128 | what is accepted on save is accepted unchanged on publish |
| `DraftHashMeaning.NulFreeMeaning` | apps/api/src/business-roles/draft.ts:33-49 | the scan lets a value through exactly when no string and no member name in it, at any depth, holds a NUL |
| `Ordering.SortedAlikeIffPermuted` | apps/api/src/business-roles/draft.ts:138-141 | two lists sort to the same list exactly when they are permutations |
| `PublishGate.RoleStore.SaveDraft` | apps/api/src/business-roles/business-roles.repository.ts:133-156 | saving replaces the draft and clears hash and count; an invalid definition or a missing role changes nothing |
| `PublishGate.RoleStore.RecordSimulation` | apps/api/src/business-roles/business-roles.repository.ts:168-181 | recording sets exactly the hash and the count |
| `PublishGate.RoleStore.PublishWithin` | apps/api/src/business-roles/business-roles.repository.ts:199-254 | the refusals in order, each before any write; on success the live rows are the draft and the record is cleared |
| `PublishGate.GateExactly` | apps/api/src/business-roles/business-roles.repository.ts:199-229 | on reachable rows the gate opens exactly when the last simulation since the last save was of the same canonical form with count zero and no condition is self-editable |
| `PublishGateMeaning.GateMeaning` | apps/api/src/business-roles/business-roles.repository.ts:199-255 | the gate's answer on every reachable row: open exactly for a draft simulated clean since it was saved, none of whose conditions is on `attributes.` followed by a self-editable key; the reported keys are exactly the offending ones |
| `PublishGateMeaning.OpenGateIsClean` | apps/api/src/business-roles/business-roles.repository.ts:368-415 | an opened gate lets no condition on `attributes.k` through for any self-editable `k` |
| `PublishGateMeaning.PublishMeaning` | apps/api/src/business-roles/business-roles.repository.ts:231-254 | what is let through goes live and its draft and record go; a refusal changes nothing |
| `PublishGateMeaning.SaveMeaning` | apps/api/src/business-roles/business-roles.repository.ts:133-155 | a saved draft reads back, counts as not simulated, and leaves the live formula and all other roles |
| `PublishGate.LiveDefinitionsWereSimulatedClean` | apps/api/src/business-roles/business-roles.repository.ts:183-190 | over every run of saves, two-step simulations and publishes, each definition that went live was simulated clean after its last edit |
| `PublishGate.StaleRecordDoesNotPublish` | apps/api/src/business-roles/business-roles.repository.ts:205-207 | a simulation of the old draft recorded after an edit does not clear the new draft |
| `PublishGate.CleanAfterPublishIffResimulationIsClean` | apps/api/src/business-roles/business-roles.repository.ts:209-229 | a publish leaves no violation on the role's conflicts exactly when re-simulating just before it finds none |
| `PublishGate.LaterConflictSlipsThrough` | apps/api/src/business-roles/business-roles.repository.ts:218-229 | the recorded count does not see a conflict created later: a concrete publish that goes through with a violation |
| `Decimal.ReadIffSpelled` | apps/api/src/attributes/attribute-conversion.ts:147-147 | the numeral expression accepts exactly the texts of its shape, each in one way |
| `Decimal.NormaliseDecimal` | apps/api/src/attributes/attribute-conversion.ts:168-187 | the step-by-step reduction computes the normal form |
| `Decimal.NormalIffSameValue` | apps/api/src/attributes/attribute-conversion.ts:149-157 | same normal form exactly when same rational, plain or exponential, within exact exponents |
| `Decimal.WrongExactlyWhenExponentsMerge` | apps/api/src/attributes/attribute-conversion.ts:178-184 | different values share a form exactly when they have the same digits and sign and their exponents round to one double |
| `Decimal.HugeExponentsMerge` | apps/api/src/attributes/attribute-conversion.ts:178-178 | the concrete failure: exponents 2^53 and 2^53 + 1 |
| `Decimal.SameValueIffSameParts` | apps/api/src/attributes/attribute-conversion.ts:149-152 | sign, significand without outer zeros and exponent determine the rational and are determined by it |
| `DecimalMeaning.PointMeaning` | apps/api/src/attributes/attribute-conversion.ts:147-187 | a digit more behind the point is a tenth: ten times the numeral is the one with the point moved right |
| `DecimalMeaning.ExponentMeaning` | apps/api/src/attributes/attribute-conversion.ts:147-187 | one more in the exponent, whichever way it is written, is ten times the value |
| `Conversion.ConversionNeverMergesValues` | apps/api/src/attributes/attribute-conversion.ts:47-90 | texts converted to the same number denote the same rational, whatever rounding and rendering do |
| `Conversion.AcceptedIffNothingIsLost` | apps/api/src/attributes/attribute-conversion.ts:57-88 | a plain decimal is accepted exactly when the number is rendered with the same value |
| `ConversionMeaning.PlainMeaning` | apps/api/src/attributes/attribute-conversion.ts:46-50 | a plain decimal is a minus sign at most, digits, and a point with digits at most |
| `ConversionMeaning.IsoMeaning` | apps/api/src/attributes/attribute-conversion.ts:96-99 | an ISO date is four, two and two digits with dashes, and a time with fraction and zone behind it or nothing |
| `ConversionMeaning.TypeMeaning` | apps/api/src/attributes/attribute-conversion.ts:10-45 | without a change of type a scalar stays; with one, exactly the values without a text are unreadable |
| `ConversionMeaning.ToBooleanMeaning` | apps/api/src/attributes/attribute-conversion.ts:91-95 | a boolean comes of exactly the two words, each of its own |
| `ConversionMeaning.ToTextMeaning` | apps/api/src/attributes/attribute-conversion.ts:120-131 | a text type takes every text, an enumeration exactly its options, as they are |
| `ConversionMeaning.ToNumberMeaning` | apps/api/src/attributes/attribute-conversion.ts:47-90 | which of the three refusals a text gets, or the number the language reads |
| `ConversionMeaning.ToDateMeaning` | apps/api/src/attributes/attribute-conversion.ts:96-119 | a date keeps its text; refused as no ISO date or as rolled over, and when |
| `Conversion.ConversionAcceptsRealDates` | apps/api/src/attributes/attribute-conversion.ts:96-119 | on date-only text conversion accepts exactly the real Gregorian dates |
| `Conversion.ValidatorIffReal` | apps/api/src/attributes/attribute-validator.ts:91-105 | validation accepts exactly the real dates of year 100 and later, without a time |
| `Conversion.ChecksAgreeIffNotEarly` | apps/api/src/attributes/attribute-validator.ts:82-105 | on date-only text the two agree exactly where the text is not a real date before year 100 |
| `Conversion.TimePartsNeverValidate` | apps/api/src/attributes/attribute-conversion.ts:96-119 | with a time part validation refuses everything, conversion accepts exactly well-shaped parseable real dates |
| `Conversion.ConvertedDateValidatesIff` | apps/api/src/attributes/attribute-validator.ts:188-191 | a value converted to a date passes validation exactly when it has no time part and is not before year 100 |
| `Conversion.FirstDayIsDisputed` | apps/api/src/attributes/attribute-validator.ts:81-105 | the input: `0001-01-01` converts and does not validate |
| `Conversion.MidnightIsNotValidated` | apps/api/src/attributes/attribute-validator.ts:188-191 | the input: a text with a time converts and does not validate |
| `Conversion.NumberToTextReversibleIff` | apps/api/src/attributes/attribute-conversion.ts:212-223 | number to text comes back exactly when it renders without exponent and reads as itself |
| `Conversion.TextToNumberReversibleIff` | apps/api/src/attributes/attribute-conversion.ts:212-223 | helper, read off one definition: text to number comes back exactly when it is how the number is rendered |
| `Conversion.TextKeptReversibleIff` | apps/api/src/attributes/attribute-conversion.ts:212-223 | between text, date and enumeration a value is kept, and comes back exactly when the old type still accepts it |
| `Calendar.RoundTripsIffReal` | apps/api/src/attributes/attribute-conversion.ts:106-116 | composing and decomposing a date gives the same numbers exactly when the date exists |
| `Calendar.YearLength` | apps/api/src/attributes/attribute-conversion.ts:110-113 | day numbers of consecutive new years differ by 365 or 366 as the leap rule says |
| `Calendar.PaddedMatches` | apps/api/src/attributes/attribute-conversion.ts:111-114 | a zero-padded number equals a digit group exactly when it is its value |
| `MigrationWalk.WalkHolders` | apps/api/src/attributes/attribute-migration.job.ts:705-735 | the keyset walk page by page, each page a query that sees what others have committed by then |
| `MigrationWalk.SeenMeaning` | apps/api/src/attributes/attribute-migration.job.ts:689-735 | whatever changes meanwhile, nobody is seen twice, ids ascend, and everybody seen was there with that value when their page was read |
| `MigrationWalk.SteadyIsSeen` | apps/api/src/attributes/attribute-migration.job.ts:689-735 | whoever holds one value throughout the walk is seen with it |
| `MigrationWalk.StillWalkYieldsHolders` | apps/api/src/attributes/attribute-migration.job.ts:689-735 | over a table that does not change the walk yields every holder once, in id order, for any page size |
| `MigrationWalk.HoldersAscend` | apps/api/src/attributes/attribute-migration.job.ts:689-704 | holders are exactly the rows carrying the key, ids strictly ascending |
| `Migration.PlanWalk` | apps/api/src/attributes/attribute-migration.job.ts:638-686 | one pass computes counts, bounded sample, changes and digest as specified |
| `Migration.Preview` | apps/api/src/attributes/attribute-migration.job.ts:333-339 | refusals and report of the read-only preview, redacted for a sensitive definition |
| `Migration.PreviewOfSensitiveShowsNoValue` | apps/api/src/attributes/attribute-migration.job.ts:121-132 | helper, read off one definition: redaction keeps counts, ids and hash and replaces every value and reason |
| `Migration.StreamDeterminesInput` | apps/api/src/attributes/attribute-migration.job.ts:623-649 | the digested bytes determine the header and every holder with their value |
| `Migration.HashAuthorisesThisPlan` | apps/api/src/attributes/attribute-migration.job.ts:195-223 | a matching hash means same population, changes, refusals and blast radius, but for the sensitive flag |
| `Migration.HashIgnoresSensitive` | apps/api/src/attributes/attribute-migration.job.ts:623-636 | helper, read off one definition: the sensitive flag is not covered by the hash |
| `Migration.SensitiveRefusesIffNotReversible` | apps/api/src/attributes/attribute-migration.job.ts:399-399 | turning the flag on after the preview refuses the commit exactly when some change cannot be undone by converting back |
| `Migration.ChangesAreConversions` | apps/api/src/attributes/attribute-migration.job.ts:651-666 | the changes are exactly the holders whose converted value differs, or all convertible ones when the scope moves |
| `Migration.NoTroubleMeansAllConvert` | apps/api/src/attributes/attribute-migration.job.ts:651-661 | no refusal is listed exactly when every value converts |
| `MigrationMeaning.PlanMeaning` | apps/api/src/attributes/attribute-migration.job.ts:638-686 | the plan in terms of the stored values: a change for exactly those that become another value, the counts and the bounded list of failures |
| `MigrationMeaning.HashPins` | apps/api/src/attributes/attribute-migration.job.ts:623-649 | two plans have one hash exactly when definition id, type, scope, options, destination and every holder with their value agree |
| `MigrationMeaning.LetThroughIff` | apps/api/src/attributes/attribute-migration.job.ts:374-432 | a commit is let through exactly when the definition, the change, every value, the default, the rules, the hash and the blast radius allow it |
| `MigrationMeaning.RefusalsInOrder` | apps/api/src/attributes/attribute-migration.job.ts:352-358 | otherwise it gets the first refusal in the documented order |
| `MigrationCommit.MigrationJob.Commit` | apps/api/src/attributes/attribute-migration.job.ts:374-511 | the whole commit: refusals in order and nothing changed, or everything applied, the definition with the requested type, the converted default and all else as it was, and the audit row, or a moved value and nothing of it applied |
| `MigrationMeaning.SecondPreviewPlansNothing` | apps/api/src/attributes/attribute-migration.job.ts:437-445 | previewing the same change again over the definition a commit leaves and converted values plans nothing |
| `MigrationMeaning.CommittedMigrationIsDone` | apps/api/src/attributes/attribute-migration.job.ts:374-511 | after a successful commit left alone, previewing the same change reports nothing to do |
| `MigrationCommit.UserTable.ApplyChanges` | apps/api/src/attributes/attribute-migration.job.ts:433-435 | the guarded updates among other transactions' edits end as the interleaving machine says |
| `MigrationCommit.UserTable.ApplyOne` | apps/api/src/attributes/attribute-migration.job.ts:532-561 | one compare-and-set on one key of one row |
| `MigrationCommit.CommitIsAllOrNothing` | apps/api/src/attributes/attribute-migration.job.ts:513-531 | on success every planned user held the planned value up to the commit and has the converted one after it, nothing else differs; otherwise nothing differs |
| `MigrationCommit.UndisturbedCommitSucceeds` | apps/api/src/attributes/attribute-migration.job.ts:433-435 | without interference the migration goes through |
| `MigrationCommit.PlanMatchesTable` | apps/api/src/attributes/attribute-migration.job.ts:643-666 | each user is planned at most once, with the value held and its conversion |
| `MigrationCommit.PlanNamesEachOnce` | apps/api/src/attributes/attribute-migration.job.ts:643-666 | whatever was edited during the walk, a plan names each user once |
| `MigrationLeftovers.NothingOldIsLeftIff` | apps/api/src/attributes/attribute-migration.job.ts:513-531 | after a successful commit no unconverted value is left under the key exactly when everybody who then holds something the walk did not see them hold has a converted value already |
| `MigrationLeftovers.AddedBehindTheWalkStaysOld` | apps/api/src/attributes/attribute-migration.job.ts:513-531 | the input: a user added between the walk and the commit keeps a value of the old type |
| `MigrationCommit.AuditUndoes` | apps/api/src/attributes/attribute-migration.job.ts:447-482 | replaying the audited before-values restores every bag exactly |
| `MigrationCommit.InverseConversionUndoes` | apps/api/src/attributes/attribute-migration.job.ts:788-812 | for a sensitive definition converting back restores every bag exactly, without a record |
| `MigrationCommit.PastTheGuards` | apps/api/src/attributes/attribute-migration.job.ts:399-418 | past the guards every value converts, and for a sensitive definition every change converts back |
| `Delegation.DelegationCreatesNoAuthority` | apps/api/src/authz/role-assignments.controller.ts:186-330 | over every interleaving of assign and revoke requests nobody can do anything anywhere that nobody could at the start |
| `Delegation.DelegationRaisesNoRank` | apps/api/src/authz/privilege.guards.ts:61-66 | nor does the highest rank grow |
| `Delegation.TakeAddsNothing` | apps/api/src/authz/role-assignments.controller.ts:206-236 | one step adds no authority beyond the table and the callers under way |
| `Delegation.GrantStaysInsideGranter` | apps/api/src/authz/privilege.guards.ts:94-144 | a permitted grant's authority lies inside the granter's, action by action and unit by unit |
| `Delegation.GrantStaysBelowGranter` | apps/api/src/authz/privilege.guards.ts:94-144 | and its rank is at most the granter's |
| `Delegation.CheckAgreesWithFilter` | apps/api/src/authz/permission.engine.ts:213-314 | the check and the listing filter agree on every org unit; null is everywhere, the empty list nowhere |
| `Delegation.AssignersAreSuperAdmins` | apps/api/src/authz/actions.ts:219-313 | of the catalog only super admins may assign roles |
| `DelegationCatalog.WhoDoesMoreThanLook` | apps/api/src/authz/actions.ts:219-313 | auditors and readers only look, the help desk besides updates users, user admins besides manage users and groups |
| `DelegationCatalog.RankFollowsPermissions` | apps/api/src/authz/actions.ts:219-313 | a role that may do all another may, and more, ranks above it; every rank is above none |
| `Delegation.RankCheckFollows` | apps/api/src/authz/privilege.guards.ts:226-276 | once the permission check passes, the rank check fails exactly on a role key the catalog does not know |
| `Delegation.HighestRankMeaning` | apps/api/src/authz/privilege.guards.ts:61-66 | the highest rank is that of some known holding and exceeded by none; without one it lies below every rank |
| `Delegation.ModifyDenialMeaning` | apps/api/src/authz/privilege.guards.ts:226-276 | the rank guard passes exactly when every role of the target is known and the actor holds one of at least its rank |
| `Delegation.GrantTable.Assign` | apps/api/src/authz/role-assignments.controller.ts:188-237 | the checks in order, then the insert with its own refusals; a refusal changes nothing |
| `Delegation.GrantTable.Revoke` | apps/api/src/authz/role-assignments.controller.ts:276-329 | a revoke is checked against the grant it removes and removes exactly that row |
| `Delegation.GrantTable.Insert` | apps/api/src/authz/role-assignments.repository.ts:55-127 | unknown user, unknown org unit and an existing grant are refused |
| `DelegationMoments.StepAddsNothingIff` | apps/api/src/authz/role-assignments.controller.ts:186-237 | one step adds nothing to the authority that is there exactly when each action of a role it grants is covered, at the scope, by a grant still there |
| `DelegationMoments.UnionNeverGrowsIff` | apps/api/src/authz/role-assignments.controller.ts:186-330 | the union of all authority grows between no two moments of a run exactly when every grant was still covered when written |
| `DelegationMoments.UnrevokedCoverKeepsGrantInside` | apps/api/src/authz/role-assignments.controller.ts:206-237 | if the row that covered a grant when its request arrived is not revoked before the grant is written, the grant lies inside its granter's authority at that moment and the union does not grow |
| `DelegationMoments.SuperAdminInsideIffCover` | apps/api/src/authz/privilege.guards.ts:94-144 | a super-admin grant lies inside its granter's present authority exactly when the granter has a covering row at that moment |
| `DelegationMoments.PermittedIffCovered` | apps/api/src/authz/privilege.guards.ts:94-144 | the scope check passes exactly when the caller has a row of that role, or of super admin, that covers the scope |
| `DelegationMoments.StaysIffNotRevoked` | apps/api/src/authz/role-assignments.controller.ts:276-329 | a grant is there at the end of a run exactly when no revoke of it was written |
| `DelegationMoments.InsertMeaning` | apps/api/src/authz/role-assignments.repository.ts:55-127 | an insert goes through exactly for an existing user and unit and a role the user does not hold at that very scope |
| `DelegationMoments.NothingIsGrantedTwice` | apps/api/src/authz/role-assignments.repository.ts:100-127 | no run gives one user one role at one scope twice |
| `DelegationMoments.RevokedCoverGrantsAnew` | apps/api/src/authz/role-assignments.controller.ts:206-210 | the trace: the only super admin's grant is revoked between the check and the write, and the write creates authority nobody had at that moment |
| `AdUser.Connector.Apply` | apps/api/src/connectors/active-directory.connector.ts:467-563 | the entry's part of an apply, below org units that exist, leaves the specified directory and answers the entry's id |
| `AdUser.Connector.Plan` | apps/api/src/connectors/active-directory.connector.ts:376-448 | the dry run lists create, or move, profile update and enabled change of the found entry |
| `AdUser.Connector.SetEnabledPreservingOtherBits` | apps/api/src/connectors/active-directory.connector.ts:1125-1139 | the read-modify-write of the one bit, no write when it is right |
| `AdUser.InterruptedApplyConverges` | apps/api/src/connectors/active-directory.connector.ts:467-563 | stopped after any prefix of the entry's writes and run again, apply ends in the directory an uninterrupted run leaves, create included |
| `AdUser.InterruptedUpdateConverges` | apps/api/src/connectors/active-directory.connector.ts:546-560 | the same for one entry's update |
| `AdUser.PlanEmptyAfterApply` | apps/api/src/connectors/active-directory.connector.ts:388-446 | after success the plan is empty |
| `AdUser.PlanMatchesApply` | apps/api/src/connectors/active-directory.connector.ts:376-448 | the plan announces exactly the kinds of writes apply makes |
| `AdUserMeaning.AppliedMirrors` | apps/api/src/connectors/active-directory.connector.ts:450-564 | after an apply the user's entry mirrors the desired user, core attribute by core attribute, mapped values, dropped ones, place, name and enabled bit; all other entries stay |
| `AdUserMeaning.CreatedMeaning` | apps/api/src/connectors/active-directory.connector.ts:475-481 | a created entry: classes, name, DN and the account-control word |
| `AdUserMeaning.PayloadMeaning` | apps/api/src/connectors/active-directory.connector.ts:1120-1122 | core attributes win over mapped ones; managed names outside both are to be cleared |
| `AdUserMeaning.PlanMeaning` | apps/api/src/connectors/active-directory.connector.ts:376-448 | which operations the dry run lists, in terms of the entry and the desired user |
| `AdUserMeaning.FoundMeaning` | apps/api/src/connectors/active-directory.connector.ts:961-999 | the first entry with the stored id, else the first with the account name |
| `AdUserMeaning.MovedIsNamed` | apps/api/src/connectors/active-directory.connector.ts:546-556 | a moved entry carries the username as its naming attribute |
| `AdUserMeaning.UserDnReads` | apps/api/src/connectors/active-directory.connector.ts:807-810 | a user's DN reads as the username under the path's org units under the base |
| `AdUser.UnmanagedUntouched` | apps/api/src/connectors/active-directory.connector.ts:497-516 | unmanaged attributes and all account-control bits but the disabling one are unchanged |
| `AdUser.MappedUacSettlesIff` | apps/api/src/connectors/active-directory.connector.ts:1119-1122 | with a mapping onto `userAccountControl` the plan after success is empty exactly when the mapped value carries the right bit |
| `AdUser.CreatedIsFound` | apps/api/src/connectors/active-directory.connector.ts:961-999 | a created entry is found again by its account name |
| `AdUser.SortedComparison` | apps/api/src/connectors/active-directory.connector.ts:149-160 | comparing sorted value lists is comparing multisets |
| `AdUser.MappedUacNeverSettles` | apps/api/src/connectors/active-directory.connector.ts:1119-1122 | the input: a mapping with the word of a disabled account for somebody to be enabled |
| `AdApply.AdConnector.Apply` | apps/api/src/connectors/active-directory.connector.ts:450-564 | the whole apply: the chain of org units, then the entry; an org unit that is missing after all refuses the placement and drops the cache |
| `AdApply.InterruptedWholeApplyConverges` | apps/api/src/connectors/active-directory.connector.ts:450-564 | stopped after any prefix of all its writes, org units included, and run again, apply ends in the directory an uninterrupted run leaves, and succeeds or fails like it |
| `AdApply.StoppedAtTheEnd` | apps/api/src/connectors/active-directory.connector.ts:450-564 | after the last of those writes the directory is the one a completed apply leaves |
| `AdApply.SucceedsIff` | apps/api/src/connectors/active-directory.connector.ts:906-929 | with a sound cache an apply succeeds exactly when it may create org units or none is missing; otherwise it writes nothing |
| `AdApply.WalkWritesMissing` | apps/api/src/connectors/active-directory.connector.ts:906-929 | at each level of the walk exactly the levels missing so far have been written, the first of all that are missing |
| `AdApply.RefusalIsFinishedByTheNext` | apps/api/src/connectors/active-directory.connector.ts:367-368 | an apply refused over a stale cache is finished by the next one, in the same entries |
| `AccountControl.SetsOnlyTheBit` | apps/api/src/connectors/active-directory.connector.ts:1125-1131 | setting the bit sets it, changes no other, and is the identity exactly when it is right |
| `AdGroup.MembersConverge` | apps/api/src/connectors/active-directory.connector.ts:695-710 | members end up as desired up to letter case; kept members are kept as written, new ones were missing |
| `AdGroup.PlanMatchesApply` | apps/api/src/connectors/active-directory.connector.ts:603-630 | the group plan is empty after apply, and before it exactly when there is nothing to write |
| `AdGroup.InterruptedUpdateConverges` | apps/api/src/connectors/active-directory.connector.ts:632-647 | an interrupted group update is finished by the next |
| `AdGroup.NameReachedIff` | apps/api/src/connectors/active-directory.connector.ts:668-693 | the account name is right after apply exactly when the group was renamed beyond letter case or had it already |
| `AdGroup.MisnamedStaysMisnamed` | apps/api/src/connectors/active-directory.connector.ts:668-693 | the input: a group in its place under another account name has an empty plan and keeps the name |
| `AdGroup.ApplyUpdate` | apps/api/src/connectors/active-directory.connector.ts:668-712 | rename with account name, then added and removed members, as specified |
| `Dn.EscapeDnValue` | apps/api/src/connectors/ad-guid.ts:20-39 | the loop computes the escaped value |
| `Dn.EscapedReadsBack` | apps/api/src/connectors/ad-guid.ts:11-19 | an escaped value reads back by the grammar of RFC 4514 section 3, whatever follows |
| `DnMeaning.BareIsUnchanged` | apps/api/src/connectors/ad-guid.ts:20-39 | a value is written as it is exactly when every character in it may stand bare |
| `DnMeaning.BareIsRefused` | apps/api/src/connectors/ad-guid.ts:11-19 | the grammar refuses the characters that are escaped when they stand bare |
| `Dn.OuDnForPath` | apps/api/src/connectors/active-directory.connector.ts:799-805 | the walk over the labels builds the specified DN |
| `Dn.OuDnReadsBack` | apps/api/src/connectors/active-directory.connector.ts:799-805 | an org unit's DN reads back as its path above the base |
| `Dn.SameDnIffSamePathButCase` | apps/api/src/connectors/active-directory.connector.ts:1142-1145 | ignoring case, two org-unit DNs are equal exactly when the paths differ in letter case at most |
| `OrgUnitCache.OrgUnits.EnsureOrgUnitChain` | apps/api/src/connectors/active-directory.connector.ts:906-929 | the walk confirms or creates each level; an error keeps what was created and drops the cache |
| `OrgUnitCache.OrgUnits.ApplyOrgUnit` | apps/api/src/connectors/active-directory.connector.ts:851-894 | move of one node with its descendants, or creation |
| `OrgUnitCache.MoveKeepsCacheIff` | apps/api/src/connectors/active-directory.connector.ts:879-884 | after a move every cached org unit exists exactly when nothing else at or below the old place was cached, or descendants are forgotten too |
| `OrgUnitCache.ForgettingDescendantsIsSound` | apps/api/src/connectors/active-directory.connector.ts:367-368 | the variant that forgets descendants keeps the cache sound over every run without outside deletions |
| `OrgUnitCache.RenameLeavesDescendantCached` | apps/api/src/connectors/active-directory.connector.ts:882-883 | as written it does not hold: the concrete rename |
| `Miner.CohortOf` | apps/api/src/business-roles/role-miner.ts:149-162 | the cohort is the people the evaluator matches; a refusal is reported |
| `Miner.ScoresPartition` | apps/api/src/business-roles/role-miner.ts:168-198 | matched, gained and lost partition cohort and members |
| `MinerMeaning.ScoreMeaning` | apps/api/src/business-roles/role-miner.ts:168-198 | precision is the matched share of the cohort, coverage that of the members, the score their harmonic mean; gained and lost are the rest of each |
| `MinerMeaning.RefusedParams` | apps/api/src/business-roles/role-miner.ts:251-256 | parameters are refused exactly when a threshold leaves zero to one or no candidate is asked for |
| `Miner.AtomNeverRefused` | apps/api/src/business-roles/role-miner.ts:206-231 | the evaluator answers every mined condition for everybody |
| `Miner.AtomMatchesItsMember` | apps/api/src/business-roles/role-miner.ts:200-205 | and the member it was taken from meets it |
| `Miner.PrefixesAreAncestors` | apps/api/src/business-roles/role-miner.ts:134-141 | the path prefixes tried are exactly the org units the member is at or below |
| `MinerSearch.MineRoles` | apps/api/src/business-roles/role-miner.ts:251-372 | the run reports, per group in id order, the specified candidates; parameters out of range are refused |
| `MinerSearch.MineGroup` | apps/api/src/business-roles/role-miner.ts:286-369 | one group's search computes the specified candidates over its atoms |
| `MinerSearch.AtomicCandidatesFor` | apps/api/src/business-roles/role-miner.ts:206-231 | the atoms are the conditions some member meets, once each, in key order |
| `MinerSearch.ReportedAreFaithfulAndUnbeaten` | apps/api/src/business-roles/role-miner.ts:346-357 | each reported candidate is scored over exactly the evaluator's cohort, passes both thresholds, and no accepted shorter one matches or beats it on both scores |
| `MinerSearch.PruningLosesNothing` | apps/api/src/business-roles/role-miner.ts:305-344 | with at most 24 feasible atoms every passing pair on different fields is accepted |
| `MinerSearch.PairCohort` | apps/api/src/business-roles/role-miner.ts:233-241 | the cohort of a pair is the intersection of its conditions' cohorts |
| `MinerSearch.SourcesMatchMost` | apps/api/src/business-roles/role-miner.ts:316-322 | when the cap cuts, the atoms kept for pairing match at least as many members as those cut |
| `MinerSearch.ReportedBestFirst` | apps/api/src/business-roles/role-miner.ts:359-365 | candidates come in descending score, and none cut scores better than one reported |
| `MinerMeaning.ReportedReachThresholds` | apps/api/src/business-roles/role-miner.ts:286-303 | a reported candidate reaches both thresholds, and its gained and lost people are those the evaluator says |
| `MinerMeaning.ReportedAreUnbeaten` | apps/api/src/business-roles/role-miner.ts:346-357 | of the accepted candidates exactly those are reported that no shorter accepted one makes pointless, as far as the limit allows |
| `MinerMeaning.ReportedInOrder` | apps/api/src/business-roles/role-miner.ts:359-365 | by score, then length, then key |
| `MinerMeaning.SourcesInOrder` | apps/api/src/business-roles/role-miner.ts:316-322 | the conditions to be paired come by matched members, then key |
| `MinerSearch.OrderDoesNotMatter` | apps/api/src/business-roles/role-miner.ts:8-15 | the output is the same under any reordering of users and any reordering or repetition of memberships |

## Left out

- HTTP, guards as decorators, authentication, the command-line tools and the console: plumbing.
- SQL, LDAP wire format, TLS and connection reuse: rows are maps and sequences, the directory is a state.
- The fan-out of outbox events to targets: a membership event is one logical event.
- The order of the justifying roles in an explanation, and of ids in reported lists: modelled as sets.
- The text of refusals, except that the miner's and the evaluator's reasons are told apart.
- The enabled flag shown beside a violation and the names shown beside ids: display only.
- The report on conflicts that the sweep appends to its own: `SodChecker` models it by itself.
- `attributeKeyLock` and `validateAttributeKey`: the lock is an id per key in `KeyLockProtocol`; the vocabulary
  check is a list of independent tests.
- The label, sort order and other plain fields an update of a definition may patch: they touch no invariant.
- Attribute names that differ only in letter case, and the directory's own refusals of a write.
- `disable`, `health`, GUID byte order, filter escaping and prototype-chain defences.
- Moving or deleting org units while role assignments are made: the paths of a request's caller stay valid.
- Access requests, recertification, connector configuration and bootstrap: single guarded updates.
- `buildFieldSchema` beyond dates: the schema library's own checks.
